/** The conditional chunker, proved against `ChunkSpec`: it keeps the words, fits, and uses fewest chunks. */
module Chunking {
  import opened Text
  import opened Greedy
  import opened Segmentation
  import opened ChunkSpec

  predicate AllFit(chunks: seq<string>, target: int) {
    forall i | 0 <= i < |chunks| :: Tokens(chunks[i]) <= target
  }

  lemma AllFitAppend(a: seq<string>, b: seq<string>, target: int)
    ensures AllFit(a + b, target) <==> AllFit(a, target) && AllFit(b, target)
    ensures NoBlank(a + b) <==> NoBlank(a) && NoBlank(b)
  {
    forall i | 0 <= i < |a| ensures (a + b)[i] == a[i] {}
    forall i | 0 <= i < |b| ensures b[i] == (a + b)[|a| + i] {}
  }

  predicate IsJoiner(joiner: string) {
    joiner != "" && AllSpace(joiner)
  }

  lemma Joiners()
    ensures IsJoiner(" ") && IsJoiner("\n") && IsJoiner("\n\n")
    ensures AllSpace("\n") && AllSpace("\n\n")
  {
  }

  lemma TakeOne(s: seq<string>, i: nat)
    requires i < |s|
    ensures s[..i + 1] == s[..i] + [s[i]]
    ensures FlatWords(s[..i + 1]) == FlatWords(s[..i]) + Words(s[i])
  {
    FlatWordsAppend(s[..i], [s[i]]);
    assert s[..i + 1] == s[..i] + [s[i]];
    FlatWordsSingleton(s[i]);
  }

  lemma TakeAll(s: seq<string>)
    ensures s[..|s|] == s
  {
  }

  lemma LoopStart(units: seq<string>, joiner: string, target: int)
    ensures Kept([], [], units[..0]) && Bounded([], [], target)
    ensures PackedSoFar([], [], [], units[..0], joiner, target)
  {
  }

  lemma StartEmpty(s: seq<string>)
    ensures s[..0] == [] && FlatWords([]) == []
  {
  }

  /** The packing a loop has built so far: closed groups and, unless nothing was read, an open one. */
  ghost predicate PackedSoFar(groups: seq<seq<string>>, current: seq<string>, chunks: seq<string>,
                              read: seq<string>, joiner: string, target: int)
  {
    && chunks == JoinAll(joiner, groups)
    && Flat(groups) + current == read
    && (current == [] ==> groups == [])
    && (current != [] ==> FirstFit(groups + [current], target))
  }

  /** Reading one more unit keeps the packing first-fit, whichever way the loop goes. */
  lemma PackedStep(groups: seq<seq<string>>, current: seq<string>, chunks: seq<string>,
                   read: seq<string>, unit: string, joiner: string, target: int)
    requires PackedSoFar(groups, current, chunks, read, joiner, target)
    ensures current != [] && !Fits(current + [unit], target) ==>
              PackedSoFar(groups + [current], [unit], chunks + [Join(joiner, current)],
                          read + [unit], joiner, target)
    ensures current == [] || Fits(current + [unit], target) ==>
              PackedSoFar(groups, current + [unit], chunks, read + [unit], joiner, target)
  {
    FirstFitStep(groups, current, unit, target);
    JoinAllSnoc(joiner, groups, current);
    FlatSnoc(groups, current);
    assert Flat(groups) + (current + [unit]) == read + [unit];
  }

  /** A finished first-fit packing has no more chunks than any packing of the same units. */
  lemma PackedIsFewest(groups: seq<seq<string>>, current: seq<string>, chunks: seq<string>,
                       units: seq<string>, joiner: string, target: int)
    requires PackedSoFar(groups, current, chunks, units, joiner, target)
    ensures forall p | Packing(p, units, target) ::
              |chunks| + (if current == [] then 0 else 1) <= |p|
  {
    if current != [] {
      FlatSnoc(groups, current);
      forall p | Packing(p, units, target)
        ensures |chunks| + 1 <= |p|
      {
        assert [] + Flat(groups + [current]) == units;
        FirstFitIsFewest(groups + [current], [], p, target);
      }
    }
  }

  /** What every packing loop keeps: the words read so far, and no blank or missing chunk. */
  ghost predicate Kept(chunks: seq<string>, current: seq<string>, read: seq<string>) {
    && FlatWords(chunks) + FlatWords(current) == FlatWords(read)
    && (NoBlank(read) ==> NoBlank(chunks) && (current != [] ==> FlatWords(current) != []))
    && (read != [] ==> chunks != [] || current != [])
  }

  ghost predicate Bounded(chunks: seq<string>, current: seq<string>, target: int) {
    target >= 1 ==> AllFit(chunks, target) && Fits(current, target)
  }

  lemma TokensOfJoin(joiner: string, units: seq<string>, target: int)
    requires IsJoiner(joiner)
    ensures Tokens(Join(joiner, units)) <= target <==> Fits(units, target)
  {
    WordsOfJoin(joiner, units);
  }

  predicate AllSmall(units: seq<string>, target: int) {
    forall k | 0 <= k < |units| :: Fits([units[k]], target)
  }

  lemma AllSmallSnoc(units: seq<string>, unit: string, target: int)
    ensures AllSmall(units + [unit], target) <==> AllSmall(units, target) && Fits([unit], target)
  {
    forall k | 0 <= k < |units| ensures (units + [unit])[k] == units[k] {}
    assert (units + [unit])[|units|] == unit;
  }

  lemma FitsAlone(unit: string, target: int)
    ensures Fits([unit], target) <==> Tokens(unit) <= target
  {
    FlatWordsSingleton(unit);
  }

  lemma NoBlankAppend(a: seq<string>, b: seq<string>)
    ensures NoBlank(a + b) <==> NoBlank(a) && NoBlank(b)
  {
    AllFitAppend(a, b, 0);
  }

  /** The unit joins the open group. */
  lemma KeptTake(chunks: seq<string>, current: seq<string>, read: seq<string>, unit: string)
    requires Kept(chunks, current, read)
    ensures Kept(chunks, current + [unit], read + [unit])
  {
    hide FlatWords, Words, NoBlank;
    FlatWordsAppend(current, [unit]);
    FlatWordsAppend(read, [unit]);
    FlatWordsSingleton(unit);
    NoBlankAppend(read, [unit]);
    NoBlankOne(unit);
    assert FlatWords(chunks) + FlatWords(current + [unit])
        == (FlatWords(chunks) + FlatWords(current)) + Words(unit);
  }

  lemma NoBlankOne(unit: string)
    ensures NoBlank([unit]) <==> !Blank(unit)
  {
    assert [unit][0] == unit;
  }

  /** The open group is closed into a chunk. */
  lemma KeptFlush(chunks: seq<string>, current: seq<string>, read: seq<string>, joiner: string)
    requires IsJoiner(joiner)
    requires Kept(chunks, current, read) && current != []
    ensures Kept(chunks + [Join(joiner, current)], [], read)
  {
    var c := Join(joiner, current);
    WordsOfJoin(joiner, current);
    FlatWordsAppend(chunks, [c]);
    FlatWordsSingleton(c);
    NoBlankAppend(chunks, [c]);
  }

  /** A unit is replaced by its own chunks. */
  lemma KeptSplit(chunks: seq<string>, read: seq<string>, unit: string, pieces: seq<string>)
    requires Kept(chunks, [], read)
    requires FlatWords(pieces) == Words(unit) && pieces != [] && (!Blank(unit) ==> NoBlank(pieces))
    ensures Kept(chunks + pieces, [], read + [unit])
  {
    assert FlatWords(chunks) + FlatWords([]) == FlatWords(chunks);
    assert FlatWords(chunks + pieces) + FlatWords([]) == FlatWords(chunks + pieces);
    FlatWordsAppend(chunks, pieces);
    FlatWordsAppend(read, [unit]);
    FlatWordsSingleton(unit);
    if NoBlank(read + [unit]) {
      NoBlankAppend(read, [unit]);
      assert !Blank([unit][0]);
      NoBlankAppend(chunks, pieces);
    }
  }

  lemma BoundedFlush(chunks: seq<string>, current: seq<string>, joiner: string, target: int)
    requires IsJoiner(joiner)
    requires Bounded(chunks, current, target)
    ensures Bounded(chunks + [Join(joiner, current)], [], target)
  {
    TokensOfJoin(joiner, current, target);
    AllFitAppend(chunks, [Join(joiner, current)], target);
  }

  lemma LoopEnd(chunks: seq<string>, units: seq<string>, target: int)
    requires Kept(chunks, [], units) && Bounded(chunks, [], target)
    ensures FlatWords(chunks) == FlatWords(units)
    ensures target >= 1 ==> AllFit(chunks, target)
    ensures NoBlank(units) ==> NoBlank(chunks)
    ensures units != [] ==> chunks != []
  {
    assert FlatWords(chunks) + FlatWords([]) == FlatWords(chunks);
  }

  lemma BoundedSplit(chunks: seq<string>, pieces: seq<string>, target: int)
    requires Bounded(chunks, [], target)
    requires target >= 1 ==> AllFit(pieces, target)
    ensures Bounded(chunks + pieces, [], target)
  {
    AllFitAppend(chunks, pieces, target);
  }

  lemma BoundedTake(chunks: seq<string>, current: seq<string>, unit: string, target: int)
    requires Bounded(chunks, current, target) && (target >= 1 ==> Fits(current + [unit], target))
    ensures Bounded(chunks, current + [unit], target)
  {
  }

  lemma PackingNeedsSmallUnits(units: seq<string>, target: int)
    ensures forall p | Packing(p, units, target) ::
              AllSmall(units, target)
  {
    forall p | Packing(p, units, target)
      ensures AllSmall(units, target)
    {
      PackingFitsUnits(p, units, target);
    }
  }

  /** A segment seen as its list of words, and as a single chunk. */
  lemma WholeSegment(segment: string, target: int)
    ensures FlatWords([segment]) == Words(segment)
    ensures FlatWords(Words(segment)) == Words(segment) && NoBlank(Words(segment))
    ensures forall i | 0 <= i < |Words(segment)| :: IsWord(Words(segment)[i])
    ensures target >= 1 && |Words(segment)| <= 1 ==> AllFit([segment], target)
    ensures !Blank(segment) <==> NoBlank([segment])
    ensures !Blank(segment) <==> Words(segment) != []
    ensures Words(segment) != [] ==> forall p | Packing(p, Words(segment), target) :: 1 <= |p|
  {
    FlatWordsSingleton(segment);
    WordsAreWords(segment);
    FlatWordsOfWords(Words(segment));
    WordsNotBlank(Words(segment));
    assert [segment][0] == segment;
  }

  lemma WordFits(word: string, target: int)
    requires IsWord(word)
    ensures target >= 1 ==> Fits([word], target)
    ensures Fits([word], target) <==> Tokens(word) <= target
  {
    WordsOfWord(word);
    FlatWordsSingleton(word);
  }

  lemma ByWordsMeans(segment: string, target: int)
    ensures ByWords(segment, target)
         == if |Words(segment)| <= 1 then [segment] else Runs(Words(segment), " ", target)
  {
  }

  /** `_hard_split_by_words` */
  method HardSplitByWords(segment: string, target: int) returns (chunks: seq<string>)
    ensures chunks != []
    ensures FlatWords(chunks) == Words(segment)
    ensures target >= 1 ==> AllFit(chunks, target)
    ensures !Blank(segment) ==> NoBlank(chunks)
    ensures !Blank(segment) ==> forall p | Packing(p, Words(segment), target) :: |chunks| <= |p|
    ensures |Words(segment)| <= 1 ==> chunks == [segment]
    ensures |Words(segment)| > 1 ==> GroupedAs(chunks, Words(segment), " ", target)
    ensures chunks == ByWords(segment, target)
  {
    hide *;
    ByWordsMeans(segment, target);
    RunsAreGrouped(Words(segment), " ", target);
    Joiners();
    WholeSegment(segment, target);
    var words := Words(segment);
    if words == [] {
      return [segment];
    }
    if |words| == 1 {
      return [segment];
    }
    LoopStart(words, " ", target);
    RunsBegin(words, " ", target);
    chunks := [];
    var current: seq<string> := [];
    ghost var groups: seq<seq<string>> := [];
    for i := 0 to |words|
      invariant Kept(chunks, current, words[..i])
      invariant Bounded(chunks, current, target)
      invariant PackedSoFar(groups, current, chunks, words[..i], " ", target)
      invariant RunsSoFar(chunks, current, words, i, " ", target)
    {
      var word := words[i];
      RunsStep(chunks, current, words, i, " ", target);
      WordFits(word, target);
      TakeOne(words, i);
      TokensOfJoin(" ", current + [word], target);
      PackedStep(groups, current, chunks, words[..i], word, " ", target);
      var prospective := if current != [] then Join(" ", current + [word]) else word;
      if current != [] && Tokens(prospective) > target {
        KeptFlush(chunks, current, words[..i], " ");
        BoundedFlush(chunks, current, " ", target);
        groups := groups + [current];
        chunks := chunks + [Join(" ", current)];
        current := [];
        KeptTake(chunks, current, words[..i], word);
        assert current + [word] == [word];
        BoundedTake(chunks, current, word, target);
        current := [word];
      } else {
        KeptTake(chunks, current, words[..i], word);
        assert current == [] ==> current + [word] == [word];
        BoundedTake(chunks, current, word, target);
        current := current + [word];
      }
    }
    TakeAll(words);
    PackedIsFewest(groups, current, chunks, words, " ", target);
    RunsEnd(chunks, current, words, " ", target);
    if current != [] {
      KeptFlush(chunks, current, words, " ");
      BoundedFlush(chunks, current, " ", target);
      chunks := chunks + [Join(" ", current)];
      current := [];
    }
    LoopEnd(chunks, words, target);
  }

  lemma WordsNotBlank(ws: seq<string>)
    requires forall i | 0 <= i < |ws| :: IsWord(ws[i])
    ensures NoBlank(ws)
  {
    forall i | 0 <= i < |ws| ensures !Blank(ws[i]) {
      WordsOfWord(ws[i]);
    }
  }

  /** What an oversized segment is packed from: its sentences, or the words of a lone sentence. */
  function SplitUnits(segment: string): seq<string> {
    var sentences := DropBlank(SplitSentences(segment, false));
    if |sentences| <= 1 then Words(segment) else sentences
  }

  lemma HardSplitMeans(segment: string, target: int)
    ensures Tokens(segment) <= target ==> HardSplit(segment, target) == [segment] && AllFit([segment], target)
    ensures var sentences := DropBlank(SplitSentences(segment, false));
            && SplitUnits(segment) == (if |sentences| <= 1 then Words(segment) else sentences)
            && (Tokens(segment) > target && |sentences| <= 1 ==>
                  HardSplit(segment, target) == ByWords(segment, target)
                  && (target >= 1 ==> !Blank(segment)))
            && (|sentences| > 1 ==> |Words(segment)| > 0 && WordsBounded(sentences, |Words(segment)| - 1))
            && (Tokens(segment) > target && |sentences| > 1 ==>
                  HardSplit(segment, target) == Pack(sentences, " ", target, |Words(segment)| - 1))
            && IsJoiner(" ")
  {
    SentencesShrink(segment);
    hide Pack, SplitSentences, WordsBounded;
  }

  /** `_hard_split_segment`: by sentences, then by words where that is not enough. */
  method HardSplitSegment(segment: string, target: int) returns (chunks: seq<string>)
    ensures chunks != []
    ensures FlatWords(chunks) == Words(segment)
    ensures target >= 1 ==> AllFit(chunks, target)
    ensures !Blank(segment) ==> NoBlank(chunks)
    ensures Tokens(segment) <= target ==> chunks == [segment]
    ensures target >= 1 ==> chunks == HardSplit(segment, target)
    ensures target >= 1 && Tokens(segment) > target ==>
              forall p | Packing(p, SplitUnits(segment), target) :: |chunks| <= |p|
    ensures target >= 1 && Tokens(segment) > target ==>
              var sentences := DropBlank(SplitSentences(segment, false));
              && (|sentences| > 1 && SmallUnits(sentences, target) ==> GroupedAs(chunks, sentences, " ", target))
              && (|sentences| <= 1 && |Words(segment)| > 1 ==> GroupedAs(chunks, Words(segment), " ", target))
    decreases |Words(segment)|, 0
  {
    hide *;
    WholeSegment(segment, target);
    HardSplitMeans(segment, target);
    if Tokens(segment) <= target {
      return [segment];
    }
    var sentences := DropBlank(SplitSentences(segment, false));
    SentencesShrink(segment);
    if |sentences| <= 1 {
      chunks := HardSplitByWords(segment, target);
      return;
    }
    var packed := PackUnits(sentences, target, " ", |Words(segment)| - 1);
    chunks := Resplit(packed, target);
  }

  lemma NoChunks(target: int)
    ensures AllFit([], target) && NoBlank([])
  {
  }

  /** A piece seen as one chunk. */
  lemma WholePiece(packed: seq<string>, i: nat, target: int)
    requires i < |packed|
    ensures FlatWords([packed[i]]) == Words(packed[i])
    ensures AllFit([packed[i]], target) <==> Tokens(packed[i]) <= target
    ensures AllFit(packed, target) ==> Tokens(packed[i]) <= target
    ensures NoBlank([packed[i]]) <==> !Blank(packed[i])
    ensures NoBlank(packed) ==> !Blank(packed[i])
  {
    FlatWordsSingleton(packed[i]);
    assert [packed[i]][0] == packed[i];
  }

  /** Putting the parts of one more piece behind what there is. */
  lemma ResplitStep(result: seq<string>, packed: seq<string>, i: nat, parts: seq<string>, target: int)
    requires i < |packed|
    requires FlatWords(result) == FlatWords(packed[..i]) && FlatWords(parts) == Words(packed[i])
    ensures FlatWords(result + parts) == FlatWords(packed[..i + 1])
    ensures AllFit(result, target) && AllFit(parts, target) ==> AllFit(result + parts, target)
    ensures NoBlank(result) && NoBlank(parts) ==> NoBlank(result + parts)
    ensures result == packed[..i] && parts == [packed[i]] ==> result + parts == packed[..i + 1]
  {
    hide *;
    TakeOne(packed, i);
    FlatWordsAppend(result, parts);
    AllFitAppend(result, parts, target);
  }

  /** The last pass of `_hard_split_segment`; for a positive target it finds nothing to split. */
  method Resplit(packed: seq<string>, target: int) returns (result: seq<string>)
    requires packed != []
    ensures result != []
    ensures FlatWords(result) == FlatWords(packed)
    ensures target >= 1 ==> AllFit(result, target)
    ensures NoBlank(packed) ==> NoBlank(result)
    ensures AllFit(packed, target) ==> result == packed
  {
    hide *;
    result := [];
    StartEmpty(packed);
    NoChunks(target);
    for i := 0 to |packed|
      invariant i > 0 ==> result != []
      invariant FlatWords(result) == FlatWords(packed[..i])
      invariant target >= 1 ==> AllFit(result, target)
      invariant NoBlank(packed) ==> NoBlank(result)
      invariant AllFit(packed, target) ==> result == packed[..i]
    {
      var piece := packed[i];
      WholePiece(packed, i, target);
      if Tokens(piece) > target {
        var parts := HardSplitByWords(piece, target);
        ResplitStep(result, packed, i, parts, target);
        result := result + parts;
      } else {
        ResplitStep(result, packed, i, [piece], target);
        result := result + [piece];
      }
    }
    TakeAll(packed);
  }

  /**
   `_pack_units`.  `bound` only proves termination: the hard split of an oversized unit packs
   sentences that each have strictly fewer words.
   */
  method PackUnits(units: seq<string>, target: int, joiner: string, ghost bound: nat)
    returns (chunks: seq<string>)
    requires IsJoiner(joiner)
    requires WordsBounded(units, bound)
    ensures units != [] ==> chunks != []
    ensures FlatWords(chunks) == FlatWords(units)
    ensures target >= 1 ==> AllFit(chunks, target)
    ensures NoBlank(units) ==> NoBlank(chunks)
    ensures forall p | Packing(p, units, target) :: |chunks| <= |p|
    ensures target >= 1 && SmallUnits(units, target) ==> GroupedAs(chunks, units, joiner, target)
    ensures target >= 1 ==> chunks == Pack(units, joiner, target, bound)
    decreases bound, 1
  {
    WordsWithin(units, bound);
    hide *;
    LoopStart(units, joiner, target);
    PackBegin(units, joiner, target, bound);
    chunks := [];
    var current: seq<string> := [];
    ghost var groups: seq<seq<string>> := [];
    for i := 0 to |units|
      invariant Kept(chunks, current, units[..i])
      invariant Bounded(chunks, current, target)
      invariant AllSmall(units[..i], target) ==>
                  PackedSoFar(groups, current, chunks, units[..i], joiner, target)
      invariant target >= 1 ==> PackSoFar(chunks, current, units, i, joiner, target, bound)
    {
      var unit := units[i];
      if target >= 1 {
        PackNext(chunks, current, units, i, joiner, target, bound);
      }
      FitsAlone(unit, target);
      TakeOne(units, i);
      AllSmallSnoc(units[..i], unit, target);
      var unitTokens := Tokens(unit);
      if unitTokens > target {
        if current != [] {
          KeptFlush(chunks, current, units[..i], joiner);
          BoundedFlush(chunks, current, joiner, target);
          chunks := chunks + [Join(joiner, current)];
          current := [];
        }
        var pieces := HardSplitSegment(unit, target);
        KeptSplit(chunks, units[..i], unit, pieces);
        BoundedSplit(chunks, pieces, target);
        chunks := chunks + pieces;
      } else {
        TokensOfJoin(joiner, current + [unit], target);
        if AllSmall(units[..i], target) {
          PackedStep(groups, current, chunks, units[..i], unit, joiner, target);
        }
        var prospective := if current != [] then Join(joiner, current + [unit]) else unit;
        if current != [] && Tokens(prospective) > target {
          KeptFlush(chunks, current, units[..i], joiner);
          BoundedFlush(chunks, current, joiner, target);
          groups := groups + [current];
          chunks := chunks + [Join(joiner, current)];
          current := [];
          KeptTake(chunks, current, units[..i], unit);
          assert current + [unit] == [unit];
          BoundedTake(chunks, current, unit, target);
          current := [unit];
        } else {
          KeptTake(chunks, current, units[..i], unit);
          assert current == [] ==> current + [unit] == [unit];
          BoundedTake(chunks, current, unit, target);
          current := current + [unit];
        }
      }
    }
    TakeAll(units);
    PackingNeedsSmallUnits(units, target);
    if AllSmall(units, target) {
      PackedIsFewest(groups, current, chunks, units, joiner, target);
    }
    if target >= 1 {
      PackEnd(chunks, current, units, joiner, target, bound);
      if SmallUnits(units, target) {
        PackSmall(units, joiner, target, bound);
      }
    }
    if current != [] {
      KeptFlush(chunks, current, units, joiner);
      BoundedFlush(chunks, current, joiner, target);
      chunks := chunks + [Join(joiner, current)];
      current := [];
    }
    LoopEnd(chunks, units, target);
    if chunks == [] {
      chunks := units;
    }
  }

  lemma WordsWithin(units: seq<string>, bound: nat)
    requires WordsBounded(units, bound)
    ensures forall i | 0 <= i < |units| :: |Words(units[i])| <= bound
  {
  }

  /** `_line_groups`: consecutive non-blank lines stay together while the group fits. */
  method LineGroups(block: string, target: int) returns (groups: seq<string>)
    ensures groups != []
    ensures FlatWords(groups) == Words(block)
    ensures !Blank(block) ==> NoBlank(groups)
    ensures NoBlank(SplitOn(block, "\n")) ==>
              forall p | Packing(p, SplitOn(block, "\n"), target) :: |groups| <= |p|
    ensures NoBlank(SplitOn(block, "\n")) ==> GroupedAs(groups, SplitOn(block, "\n"), "\n", target)
    ensures var runs := LineRuns(SplitOn(block, "\n"), target);
            groups == if runs == [] then [block] else runs
  {
    hide *;
    Joiners();
    var lines := SplitOn(block, "\n");
    WordsOfSplitOn(block, "\n");
    FlatWordsSingleton(block);
    LoopStart(lines, "\n", target);
    LinesBegin(lines, target);
    LinesStart(lines);
    groups := [];
    var current: seq<string> := [];
    ghost var packed: seq<seq<string>> := [];
    for i := 0 to |lines|
      invariant Kept(groups, current, DropBlank(lines[..i]))
      invariant NoBlank(lines[..i]) ==>
                  PackedSoFar(packed, current, groups, lines[..i], "\n", target)
      invariant LinesSoFar(groups, current, lines, i, target)
    {
      var line := lines[i];
      TakeOne(lines, i);
      StripEmptyIffBlank(line);
      DropBlankSnoc(lines[..i], line);
      if Strip(line) == "" {
        LinesBlank(groups, current, lines, i, target);
        if current != [] {
          KeptFlush(groups, current, DropBlank(lines[..i]), "\n");
          groups := groups + [Join("\n", current)];
          current := [];
        }
        continue;
      }
      TokensOfJoin("\n", current + [line], target);
      LinesStep(groups, current, lines, i, target);
      if NoBlank(lines[..i]) {
        PackedStep(packed, current, groups, lines[..i], line, "\n", target);
      }
      var prospective := if current != [] then Join("\n", current + [line]) else line;
      if current != [] && Tokens(prospective) > target {
        KeptFlush(groups, current, DropBlank(lines[..i]), "\n");
        packed := packed + [current];
        groups := groups + [Join("\n", current)];
        current := [];
        KeptTake(groups, current, DropBlank(lines[..i]), line);
        assert current + [line] == [line];
        current := [line];
      } else {
        KeptTake(groups, current, DropBlank(lines[..i]), line);
        assert current == [] ==> current + [line] == [line];
        current := current + [line];
      }
    }
    TakeAll(lines);
    LinesDone(groups, current, lines, target);
    if NoBlank(lines) {
      PackedIsFewest(packed, current, groups, lines, "\n", target);
      LineRunsOfNonBlank(lines, target);
      RunsAreGrouped(lines, "\n", target);
    }
    if current != [] {
      KeptFlush(groups, current, DropBlank(lines), "\n");
      groups := groups + [Join("\n", current)];
      current := [];
    }
    LinesEnd(groups, lines, block);
    if groups == [] {
      groups := [block];
    }
  }

  lemma LinesStart(lines: seq<string>)
    ensures DropBlank(lines[..0]) == lines[..0]
  {
  }

  lemma {:induction false} DropBlankSnoc(lines: seq<string>, line: string)
    ensures DropBlank(lines + [line]) == if Blank(line) then DropBlank(lines) else DropBlank(lines) + [line]
    ensures NoBlank(lines + [line]) <==> NoBlank(lines) && !Blank(line)
  {
    NoBlankAppend(lines, [line]);
    assert [line][0] == line;
    if lines == [] {
      assert lines + [line] == [line];
      assert DropBlank([line][1..]) == [];
    } else {
      assert (lines + [line])[1..] == lines[1..] + [line];
      DropBlankSnoc(lines[1..], line);
    }
  }

  lemma LinesEnd(groups: seq<string>, lines: seq<string>, block: string)
    requires Kept(groups, [], DropBlank(lines)) && FlatWords(lines) == Words(block)
    ensures FlatWords(groups) == Words(block) && NoBlank(groups)
    ensures groups == [] ==> Blank(block) && lines == DropBlank(lines) + lines
    ensures FlatWords([block]) == Words(block)
    ensures NoBlank(lines) && lines != [] ==> groups != []
  {
    WordsOfDropBlank(lines);
    FlatWordsSingleton(block);
    assert FlatWords(groups) + FlatWords([]) == FlatWords(groups);
    assert NoBlank(DropBlank(lines));
  }

  /** `_segments_from_text` */
  method SegmentsFromText(text: string, target: int) returns (segments: seq<string>)
    ensures segments != []
    ensures FlatWords(segments) == Words(text)
    ensures !Blank(text) ==> NoBlank(segments)
    ensures Blank(text) ==> segments == [text]
    ensures var ps := Paragraphs(text);
            && (forall p | p in ps :: !Occurs("\n\n", p))
            && (|ps| >= 2 ==> segments == ps)
            && (|ps| == 1 && '\n' !in ps[0] ==> segments == ps)
            && (|ps| == 1 && '\n' in ps[0] && NoBlank(SplitOn(ps[0], "\n")) ==>
                  GroupedAs(segments, SplitOn(ps[0], "\n"), "\n", target))
    ensures segments == Segments(text, target)
  {
    ParagraphsAre(text);
    SegmentsAre(text, target);
    BlankHasNoParagraph(text);
    SegmentsMean(text, target);
    hide *;
    var normalized := NormalizeNewlines(text);
    FlatWordsSingleton(text);
    NoBlankOne(text);
    if normalized == "" {
      return if text != "" then [text] else [""];
    }
    var paragraphs := DropBlank(SplitOn(normalized, "\n\n"));
    if paragraphs == [] {
      return [normalized];
    }
    if |paragraphs| == 1 && '\n' in paragraphs[0] {
      segments := LineGroups(paragraphs[0], target);
      assert paragraphs == [paragraphs[0]];
      FlatWordsSingleton(paragraphs[0]);
      NoBlankOne(paragraphs[0]);
    } else {
      segments := paragraphs;
    }
  }

  lemma SegmentsMean(text: string, target: int)
    ensures var ps := DropBlank(SplitOn(NormalizeNewlines(text), "\n\n"));
            && ps == Paragraphs(text) && FlatWords(ps) == Words(text)
            && (ps == [] ==> NormalizeNewlines(text) == "" && Segments(text, target) == [text])
            && (|ps| == 1 && '\n' in ps[0] ==>
                  var runs := LineRuns(SplitOn(ps[0], "\n"), target);
                  Segments(text, target) == if runs == [] then [ps[0]] else runs)
            && (|ps| >= 2 || (|ps| == 1 && '\n' !in ps[0]) ==> Segments(text, target) == ps)
  {
    hide NormalizeNewlines, SplitOn, DropBlank, LineRuns, Words, FlatWords, Blank, IsSpace;
    BlankHasNoParagraph(text);
    WordsOfParagraphs(text);
  }

  lemma WordsOfParagraphs(text: string)
    ensures FlatWords(Paragraphs(text)) == Words(text)
  {
    WordsOfNormalize(text);
    Joiners();
    WordsOfSplitOn(NormalizeNewlines(text), "\n\n");
    WordsOfDropBlank(SplitOn(NormalizeNewlines(text), "\n\n"));
    hide NormalizeNewlines, SplitOn, DropBlank, Words, FlatWords, IsSpace;
  }

  /** When no paragraph is blank or oversized, nothing of the normalised text is lost. */
  lemma ChunksJoin(text: string, target: int, chunks: seq<string>)
    requires GroupedAs(chunks, Segments(text, target), "\n\n", target)
    requires |Paragraphs(text)| >= 2
    requires |Paragraphs(text)| == |SplitOn(NormalizeNewlines(text), "\n\n")|
    ensures Join("\n\n", chunks) == NormalizeNewlines(text)
  {
    var ps := Paragraphs(text);
    ParagraphsAre(text);
    SegmentsAre(text, target);
    hide *;
    JoinOfGrouped(chunks, ps, "\n\n", target);
  }

  /** `split_into_chunks` */
  method SplitIntoChunks(text: string, target: int) returns (chunks: seq<string>)
    ensures chunks != []
    ensures FlatWords(chunks) == Words(text)
    ensures target >= 1 ==> AllFit(chunks, target)
    ensures target >= 1 && !Blank(text) ==> NoBlank(chunks)
    ensures target <= 0 || Blank(text) ==> chunks == [text]
    ensures target >= 1 && !Blank(text) ==>
              forall p | Packing(p, Segments(text, target), target) :: |chunks| <= |p|
    ensures target >= 1 && !Blank(text) ==>
              var ps := Paragraphs(text);
              && (SmallUnits(Segments(text, target), target) ==>
                    GroupedAs(chunks, Segments(text, target), "\n\n", target))
              && (|ps| >= 2 && SmallUnits(ps, target) && |ps| == |SplitOn(NormalizeNewlines(text), "\n\n")| ==>
                    Join("\n\n", chunks) == NormalizeNewlines(text))
    ensures target >= 1 && !Blank(text) ==> chunks == PackAll(Segments(text, target), "\n\n", target)
  {
    StripEmptyIffBlank(text);
    WholeSegment(text, target);
    NoBlankOne(text);
    assert PackAll(Segments(text, target), "\n\n", target)
        == Pack(Segments(text, target), "\n\n", target, MaxWords(Segments(text, target)));
    hide *;
    if Strip(text) == "" {
      return [text];
    }
    if target <= 0 {
      return [text];
    }
    Joiners();
    var segments := SegmentsFromText(text, target);
    var packed := PackUnits(segments, target, "\n\n", MaxWords(segments));
    var result := ResplitSegments(packed, target);
    SegmentsAre(text, target);
    if && SmallUnits(segments, target) && |Paragraphs(text)| >= 2
       && |Paragraphs(text)| == |SplitOn(NormalizeNewlines(text), "\n\n")| {
      ChunksJoin(text, target, packed);
    }
    chunks := if result != [] then result else [text];
  }

  /** The last pass of `split_into_chunks`; over chunks that all fit it is the identity. */
  method ResplitSegments(packed: seq<string>, target: int) returns (result: seq<string>)
    ensures packed != [] ==> result != []
    ensures FlatWords(result) == FlatWords(packed)
    ensures target >= 1 ==> AllFit(result, target)
    ensures NoBlank(packed) ==> NoBlank(result)
    ensures AllFit(packed, target) ==> result == packed
  {
    hide *;
    result := [];
    StartEmpty(packed);
    NoChunks(target);
    for i := 0 to |packed|
      invariant i > 0 ==> result != []
      invariant FlatWords(result) == FlatWords(packed[..i])
      invariant target >= 1 ==> AllFit(result, target)
      invariant NoBlank(packed) ==> NoBlank(result)
      invariant AllFit(packed, target) ==> result == packed[..i]
    {
      var chunk := packed[i];
      WholePiece(packed, i, target);
      if Tokens(chunk) > target {
        var parts := HardSplitSegment(chunk, target);
        ResplitStep(result, packed, i, parts, target);
        result := result + parts;
      } else {
        ResplitStep(result, packed, i, [chunk], target);
        result := result + [chunk];
      }
    }
    TakeAll(packed);
  }

  datatype Page = Page(url: string, cleanedText: string)
  datatype ChunkedPage = ChunkedPage(url: string, chunks: seq<string>, wasChunked: bool)

  /** What chunking one page promises. */
  ghost predicate ChunkedFrom(out: ChunkedPage, page: Page, threshold: int) {
    && out.url == page.url
    && FlatWords(out.chunks) == Words(page.cleanedText)
    && (threshold >= 1 ==> AllFit(out.chunks, threshold))
    && (out.wasChunked <==> 0 < threshold < Tokens(page.cleanedText))
    && out.chunks == if out.wasChunked then PackAll(Segments(page.cleanedText, threshold), "\n\n", threshold)
                     else [page.cleanedText]
  }

  lemma FittingOversizedTextNeedsTwo(chunks: seq<string>, text: string, threshold: int)
    requires chunks != [] && FlatWords(chunks) == Words(text) && AllFit(chunks, threshold)
    requires Tokens(text) > threshold
    ensures |chunks| > 1
  {
    if |chunks| == 1 {
      LoneChunk(chunks);
    }
  }

  lemma LoneChunk(chunks: seq<string>)
    requires |chunks| == 1
    ensures FlatWords(chunks) == Words(chunks[0])
  {
    assert chunks == [chunks[0]];
    FlatWordsSingleton(chunks[0]);
  }

  /** `chunk_cleaned_pages` */
  method ChunkCleanedPages(pages: seq<Page>, threshold: int) returns (out: seq<ChunkedPage>)
    ensures |out| == |pages|
    ensures forall i | 0 <= i < |pages| :: ChunkedFrom(out[i], pages[i], threshold)
  {
    hide Segments, PackAll, Packing, Words, FlatWords;
    out := [];
    for i := 0 to |pages|
      invariant |out| == i
      invariant forall k | 0 <= k < i :: ChunkedFrom(out[k], pages[k], threshold)
    {
      var text := pages[i].cleanedText;
      FlatWordsSingleton(text);
      var chunks;
      if Tokens(text) <= threshold {
        chunks := [text];
      } else {
        chunks := SplitIntoChunks(text, threshold);
        if threshold >= 1 {
          FittingOversizedTextNeedsTwo(chunks, text, threshold);
        }
      }
      out := out + [ChunkedPage(pages[i].url, chunks, |chunks| > 1)];
    }
  }
}
