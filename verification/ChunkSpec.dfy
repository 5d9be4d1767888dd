/**
 What the chunker produces, said without its loops: again and again the longest prefix of the
 remaining units that still fits, and the hard split of a unit that does not fit alone.
 */
module ChunkSpec {
  import opened Text
  import opened Greedy
  import opened Segmentation

  function Extend(units: seq<string>, n: nat, target: int): (r: nat)
    requires n <= |units|
    ensures n <= r <= |units|
    ensures r == n || Fits(units[..r], target)
    ensures r < |units| ==> !Fits(units[..r + 1], target)
    decreases |units| - n
  {
    if n < |units| && Fits(units[..n + 1], target) then Extend(units, n + 1, target) else n
  }

  /** How many units the next chunk takes: as many as fit together, but at least one. */
  function LongestPrefix(units: seq<string>, target: int): nat
    requires units != []
  {
    Extend(units, 1, target)
  }

  lemma FitsPrefix(units: seq<string>, a: nat, b: nat, target: int)
    requires a <= b <= |units| && Fits(units[..b], target)
    ensures Fits(units[..a], target)
  {
    assert units[..b] == [] + units[..a] + units[a..b];
    FitsStretch([], units[..a], units[a..b], target);
  }

  lemma LongestPrefixIs(units: seq<string>, n: nat, target: int)
    requires 1 <= n <= |units|
    requires n == 1 || Fits(units[..n], target)
    requires n < |units| ==> !Fits(units[..n + 1], target)
    ensures LongestPrefix(units, target) == n
  {
    var r := LongestPrefix(units, target);
    if r < n {
      FitsPrefix(units, r + 1, n, target);
    } else if r > n {
      FitsPrefix(units, n + 1, r, target);
    }
  }

  /** An open group: nothing yet, one unit, or units that fit together. */
  predicate OpenGroup(current: seq<string>, target: int) {
    |current| <= 1 || Fits(current, target)
  }

  /** A group that the next unit no longer fits into is exactly the longest prefix. */
  lemma GroupIsLongest(current: seq<string>, rest: seq<string>, target: int)
    requires current != [] && OpenGroup(current, target)
    requires rest != [] ==> !Fits(current + [rest[0]], target)
    ensures LongestPrefix(current + rest, target) == |current|
  {
    var units, n := current + rest, |current|;
    assert units[..n] == current;
    if rest != [] {
      assert units[..n + 1] == current + [rest[0]];
    }
    LongestPrefixIs(units, n, target);
  }

  /** Packing words: runs of longest fitting prefixes. */
  function Runs(units: seq<string>, joiner: string, target: int): seq<string>
    decreases |units|
  {
    if units == [] then []
    else
      var n := LongestPrefix(units, target);
      [Join(joiner, units[..n])] + Runs(units[n..], joiner, target)
  }

  lemma CloseRun(current: seq<string>, rest: seq<string>, joiner: string, target: int)
    requires current != [] && OpenGroup(current, target)
    requires rest != [] ==> !Fits(current + [rest[0]], target)
    ensures Runs(current + rest, joiner, target) == [Join(joiner, current)] + Runs(rest, joiner, target)
  {
    GroupIsLongest(current, rest, target);
    assert (current + rest)[..|current|] == current && (current + rest)[|current|..] == rest;
  }

  /** A loop has closed `done` and holds `current` open, with the units from `i` on still to read. */
  ghost predicate RunsSoFar(
    done: seq<string>, current: seq<string>, units: seq<string>, i: nat, joiner: string, target: int)
  {
    && i <= |units|
    && OpenGroup(current, target)
    && done + Runs(current + units[i..], joiner, target) == Runs(units, joiner, target)
  }

  lemma RunsBegin(units: seq<string>, joiner: string, target: int)
    ensures RunsSoFar([], [], units, 0, joiner, target)
  {
    assert [] + units[0..] == units;
  }

  lemma RunsStep(done: seq<string>, current: seq<string>, units: seq<string>, i: nat, joiner: string, target: int)
    requires i < |units| && RunsSoFar(done, current, units, i, joiner, target)
    ensures current != [] && !Fits(current + [units[i]], target) ==>
              RunsSoFar(done + [Join(joiner, current)], [units[i]], units, i + 1, joiner, target)
    ensures current == [] || Fits(current + [units[i]], target) ==>
              RunsSoFar(done, current + [units[i]], units, i + 1, joiner, target)
  {
    hide Runs;
    assert units[i..] == [units[i]] + units[i + 1..];
    assert current + units[i..] == (current + [units[i]]) + units[i + 1..];
    if current != [] && !Fits(current + [units[i]], target) {
      CloseRun(current, units[i..], joiner, target);
    }
  }

  lemma RunsEnd(done: seq<string>, current: seq<string>, units: seq<string>, joiner: string, target: int)
    requires RunsSoFar(done, current, units, |units|, joiner, target)
    ensures Runs(units, joiner, target) == if current == [] then done else done + [Join(joiner, current)]
  {
    assert current + units[|units|..] == current == current + [];
    if current != [] {
      CloseRun(current, [], joiner, target);
    }
  }

  /** The groups behind the runs. */
  function RunGroups(units: seq<string>, target: int): seq<seq<string>>
    decreases |units|
  {
    if units == [] then []
    else
      var n := LongestPrefix(units, target);
      [units[..n]] + RunGroups(units[n..], target)
  }

  lemma FirstFitCons(g: seq<string>, rest: seq<seq<string>>, target: int)
    requires g != [] && FirstFit(rest, target)
    requires rest != [] ==> !Fits(g + [rest[0][0]], target)
    ensures FirstFit([g] + rest, target) && Flat([g] + rest) == g + Flat(rest)
  {
    hide Fits;
    var groups := [g] + rest;
    assert groups[1..] == rest;
    forall i | 0 <= i < |groups| - 1 ensures !Fits(groups[i] + [groups[i + 1][0]], target) {
      if i > 0 {
        assert !Fits(rest[i - 1] + [rest[i - 1 + 1][0]], target);
      }
    }
  }

  /** Longest prefixes leave each group unable to take the unit that opens the next one. */
  lemma {:induction false} RunsAreFirstFit(units: seq<string>, joiner: string, target: int)
    ensures var groups := RunGroups(units, target);
            && FirstFit(groups, target) && Flat(groups) == units
            && |Runs(units, joiner, target)| == |groups|
            && (units != [] ==> groups != [] && groups[0] != [] && groups[0][0] == units[0])
    decreases |units|
  {
    hide Fits, FirstFit;
    if units == [] {
      assert FirstFit([], target) by { NoGroupsFirstFit(target); }
    } else {
      var n := LongestPrefix(units, target);
      RunsAreFirstFit(units[n..], joiner, target);
      if n < |units| {
        assert units[..n + 1] == units[..n] + [units[n]];
      }
      FirstFitCons(units[..n], RunGroups(units[n..], target), target);
      assert units[..n] + units[n..] == units;
    }
  }

  lemma NoGroupsFirstFit(target: int)
    ensures FirstFit([], target)
  {
  }

  /** No contiguous packing of the same units has fewer groups than their runs. */
  lemma RunsAreFewest(units: seq<string>, joiner: string, target: int)
    ensures forall p | Packing(p, units, target) :: |Runs(units, joiner, target)| <= |p|
  {
    RunsAreFirstFit(units, joiner, target);
    var groups := RunGroups(units, target);
    forall p | Packing(p, units, target) ensures |groups| <= |p| {
      assert [] + Flat(groups) == units;
      FirstFitIsFewest(groups, [], p, target);
    }
  }

  lemma {:induction false} RunsJoinGroups(units: seq<string>, joiner: string, target: int)
    ensures var groups := RunGroups(units, target);
            && Runs(units, joiner, target) == JoinAll(joiner, groups)
            && forall i | 0 <= i < |groups| :: |groups[i]| == 1 || Fits(groups[i], target)
    decreases |units|
  {
    hide Fits;
    if units != [] {
      RunsJoinGroups(units[LongestPrefix(units, target)..], joiner, target);
    }
  }

  /** The runs are the one grouping there is. */
  lemma RunsAreGrouped(units: seq<string>, joiner: string, target: int)
    ensures GroupedAs(Runs(units, joiner, target), units, joiner, target)
  {
    RunsJoinGroups(units, joiner, target);
    RunsAreFirstFit(units, joiner, target);
    hide Runs, RunGroups, FirstFit, Fits;
    assert Grouping(RunGroups(units, target), units, target);
  }

  function NonBlankPrefix(lines: seq<string>): (r: seq<string>)
    ensures r <= lines && NoBlank(r)
    ensures lines != [] && !Blank(lines[0]) ==> r != []
  {
    if lines == [] || Blank(lines[0]) then [] else [lines[0]] + NonBlankPrefix(lines[1..])
  }

  /** Packing lines: a blank line ends a group and is dropped. */
  function LineRuns(lines: seq<string>, target: int): seq<string>
    decreases |lines|
  {
    if lines == [] then []
    else if Blank(lines[0]) then LineRuns(lines[1..], target)
    else
      var n := LongestPrefix(NonBlankPrefix(lines), target);
      [Join("\n", lines[..n])] + LineRuns(lines[n..], target)
  }

  lemma {:induction false} NonBlankPrefixWhole(lines: seq<string>)
    requires NoBlank(lines)
    ensures NonBlankPrefix(lines) == lines
  {
    if lines != [] {
      NonBlankPrefixWhole(lines[1..]);
    }
  }

  lemma {:induction false} NonBlankPrefixStops(a: seq<string>, more: seq<string>)
    requires more != [] && Blank(more[0])
    ensures NonBlankPrefix(a + more) == NonBlankPrefix(a)
  {
    if a == [] {
      assert a + more == more;
    } else {
      assert (a + more)[0] == a[0] && (a + more)[1..] == a[1..] + more;
      NonBlankPrefixStops(a[1..], more);
    }
  }

  /** Lines without a blank one are packed like any other units. */
  lemma {:induction false} LineRunsOfNonBlank(lines: seq<string>, target: int)
    requires NoBlank(lines)
    ensures LineRuns(lines, target) == Runs(lines, "\n", target)
    decreases |lines|
  {
    if lines != [] {
      NonBlankPrefixWhole(lines);
      var n := LongestPrefix(lines, target);
      assert forall i | 0 <= i < |lines[n..]| :: lines[n..][i] == lines[n + i];
      LineRunsOfNonBlank(lines[n..], target);
    }
  }

  lemma FirstLineRun(lines: seq<string>, more: seq<string>, target: int)
    requires more != [] && Blank(more[0]) && lines != [] && !Blank(lines[0])
    ensures var n := LongestPrefix(NonBlankPrefix(lines), target);
            && n <= |lines|
            && LineRuns(lines, target) == [Join("\n", lines[..n])] + LineRuns(lines[n..], target)
            && LineRuns(lines + more, target) == [Join("\n", lines[..n])] + LineRuns(lines[n..] + more, target)
  {
    hide *;
    NonBlankPrefixStops(lines, more);
    OpensLineRun(lines, target);
    OpensLineRun(lines + more, target);
    TakeAndDrop(lines, more, LongestPrefix(NonBlankPrefix(lines), target));
  }

  lemma TakeAndDrop(a: seq<string>, b: seq<string>, n: nat)
    requires n <= |a|
    ensures (a + b)[..n] == a[..n] && (a + b)[n..] == a[n..] + b
  {
  }

  lemma OpensLineRun(lines: seq<string>, target: int)
    requires lines != [] && !Blank(lines[0])
    ensures var n := LongestPrefix(NonBlankPrefix(lines), target);
            && n <= |lines|
            && LineRuns(lines, target) == [Join("\n", lines[..n])] + LineRuns(lines[n..], target)
  {
  }

  lemma BlankFirstLine(lines: seq<string>, target: int)
    requires lines != [] && Blank(lines[0])
    ensures LineRuns(lines, target) == LineRuns(lines[1..], target)
  {
  }

  lemma CutInFront(more: seq<string>, target: int)
    requires more != [] && Blank(more[0])
    ensures LineRuns([] + more, target) == LineRuns([], target) + LineRuns(more[1..], target)
  {
    assert [] + more == more;
  }

  lemma RegroupAll(a: seq<string>, b: seq<string>, c: seq<string>)
    ensures a + (b + c) == (a + b) + c
  {
  }

  /** A blank line parts what is in front of it from what is behind it, and goes. */
  lemma {:induction false} LineRunsCut(lines: seq<string>, more: seq<string>, target: int)
    requires more != [] && Blank(more[0])
    ensures LineRuns(lines + more, target) == LineRuns(lines, target) + LineRuns(more[1..], target)
    decreases |lines|
  {
    hide *;
    if lines == [] {
      CutInFront(more, target);
    } else if Blank(lines[0]) {
      BlankFirstLine(lines, target);
      BlankFirstLine(lines + more, target);
      TakeAndDrop(lines, more, 1);
      LineRunsCut(lines[1..], more, target);
    } else {
      FirstLineRun(lines, more, target);
      var n := LongestPrefix(NonBlankPrefix(lines), target);
      LineRunsCut(lines[n..], more, target);
      RegroupAll([Join("\n", lines[..n])], LineRuns(lines[n..], target), LineRuns(more[1..], target));
    }
  }

  lemma {:induction false} NonBlankPrefixOf(current: seq<string>, rest: seq<string>)
    requires NoBlank(current)
    ensures NonBlankPrefix(current + rest) == current + NonBlankPrefix(rest)
  {
    if current == [] {
      assert current + rest == rest;
    } else {
      assert (current + rest)[1..] == current[1..] + rest;
      NonBlankPrefixOf(current[1..], rest);
    }
  }

  lemma CloseLines(current: seq<string>, rest: seq<string>, target: int)
    requires current != [] && NoBlank(current) && OpenGroup(current, target)
    requires rest != [] ==> Blank(rest[0]) || !Fits(current + [rest[0]], target)
    ensures LineRuns(current + rest, target) == [Join("\n", current)] + LineRuns(rest, target)
  {
    NonBlankPrefixOf(current, rest);
    GroupIsLongest(current, NonBlankPrefix(rest), target);
    assert (current + rest)[..|current|] == current && (current + rest)[|current|..] == rest;
  }

  ghost predicate LinesSoFar(done: seq<string>, current: seq<string>, lines: seq<string>, i: nat, target: int) {
    && i <= |lines|
    && OpenGroup(current, target) && NoBlank(current)
    && done + LineRuns(current + lines[i..], target) == LineRuns(lines, target)
  }

  lemma LinesBegin(lines: seq<string>, target: int)
    ensures LinesSoFar([], [], lines, 0, target)
  {
    assert [] + lines[0..] == lines;
  }

  lemma LineRunsBlank(lines: seq<string>, i: nat, target: int)
    requires i < |lines| && Blank(lines[i])
    ensures LineRuns(lines[i..], target) == LineRuns(lines[i + 1..], target)
  {
    assert lines[i..][0] == lines[i] && lines[i..][1..] == lines[i + 1..];
  }

  /** A blank line closes the open group and is dropped. */
  lemma LinesBlank(done: seq<string>, current: seq<string>, lines: seq<string>, i: nat, target: int)
    requires i < |lines| && LinesSoFar(done, current, lines, i, target) && Blank(lines[i])
    ensures LinesSoFar(if current == [] then done else done + [Join("\n", current)], [], lines, i + 1, target)
  {
    hide LineRuns, Blank, Fits, NonBlankPrefix;
    assert lines[i..][0] == lines[i] && [] + lines[i + 1..] == lines[i + 1..];
    LineRunsBlank(lines, i, target);
    if current == [] {
      assert current + lines[i..] == lines[i..];
    } else {
      CloseLines(current, lines[i..], target);
    }
  }

  lemma LinesStep(done: seq<string>, current: seq<string>, lines: seq<string>, i: nat, target: int)
    requires i < |lines| && LinesSoFar(done, current, lines, i, target) && !Blank(lines[i])
    ensures current != [] && !Fits(current + [lines[i]], target) ==>
              LinesSoFar(done + [Join("\n", current)], [lines[i]], lines, i + 1, target)
    ensures current == [] || Fits(current + [lines[i]], target) ==>
              LinesSoFar(done, current + [lines[i]], lines, i + 1, target)
  {
    hide Blank, Fits, NonBlankPrefix, LineRuns;
    assert [] + [lines[i]] == [lines[i]];
    assert lines[i..] == [lines[i]] + lines[i + 1..];
    assert current + lines[i..] == (current + [lines[i]]) + lines[i + 1..];
    if current != [] && !Fits(current + [lines[i]], target) {
      CloseLines(current, lines[i..], target);
    }
  }

  lemma LinesDone(done: seq<string>, current: seq<string>, lines: seq<string>, target: int)
    requires LinesSoFar(done, current, lines, |lines|, target)
    ensures LineRuns(lines, target) == if current == [] then done else done + [Join("\n", current)]
  {
    assert current + lines[|lines|..] == current == current + [];
    if current != [] {
      CloseLines(current, [], target);
    }
  }

  predicate WordsBounded(units: seq<string>, bound: nat) {
    forall i | 0 <= i < |units| :: |Words(units[i])| <= bound
  }

  lemma SentencesShrink(segment: string)
    ensures var sentences := DropBlank(SplitSentences(segment, false));
            && NoBlank(sentences) && FlatWords(sentences) == Words(segment)
            && (|sentences| > 1 ==> |Words(segment)| > 0 && WordsBounded(sentences, |Words(segment)| - 1))
  {
    var sentences := DropBlank(SplitSentences(segment, false));
    WordsOfSentences(segment, false);
    WordsOfDropBlank(SplitSentences(segment, false));
    forall i | 0 <= i < |sentences|
      ensures |sentences| > 1 ==> |Words(sentences[i])| <= |Words(segment)| - 1
    {
      PartHasFewerWords(sentences, i);
    }
    if |sentences| > 1 {
      PartHasFewerWords(sentences, 0);
    }
  }

  /** A segment of several words, cut between words; anything shorter is left as it is. */
  function ByWords(segment: string, target: int): seq<string> {
    if |Words(segment)| <= 1 then [segment] else Runs(Words(segment), " ", target)
  }

  /** An oversized segment is packed sentence by sentence; a lone sentence is cut between words. */
  function HardSplit(segment: string, target: int): seq<string>
    decreases |Words(segment)|, 0, 0
  {
    var sentences := DropBlank(SplitSentences(segment, false));
    if Tokens(segment) <= target then [segment]
    else if |sentences| <= 1 then ByWords(segment, target)
    else
      SentencesShrink(segment);
      Pack(sentences, " ", target, |Words(segment)| - 1)
  }

  /** `bound` is only there for termination: no unit has more words. */
  function Pack(units: seq<string>, joiner: string, target: int, bound: nat): seq<string>
    requires WordsBounded(units, bound)
    decreases bound, 1, |units|
  {
    if units == [] then []
    else if Tokens(units[0]) > target then HardSplit(units[0], target) + Pack(units[1..], joiner, target, bound)
    else
      var n := LongestPrefix(units, target);
      [Join(joiner, units[..n])] + Pack(units[n..], joiner, target, bound)
  }

  lemma ClosePack(current: seq<string>, rest: seq<string>, joiner: string, target: int, bound: nat)
    requires WordsBounded(current + rest, bound) && WordsBounded(rest, bound)
    requires current != [] && Fits(current, target)
    requires rest != [] ==> !Fits(current + [rest[0]], target)
    ensures Pack(current + rest, joiner, target, bound) == [Join(joiner, current)] + Pack(rest, joiner, target, bound)
  {
    GroupIsLongest(current, rest, target);
    assert (current + rest)[..|current|] == current && (current + rest)[|current|..] == rest;
    assert Tokens(current[0]) <= target by {
      assert current[..|current|] == current;
      FitsPrefix(current, 1, |current|, target);
      assert current[..1] == [current[0]];
      FlatWordsSingleton(current[0]);
    }
  }

  ghost predicate PackSoFar(
    done: seq<string>, current: seq<string>, units: seq<string>, i: nat, joiner: string, target: int, bound: nat)
    requires WordsBounded(units, bound)
  {
    && i <= |units|
    && (current == [] || Fits(current, target))
    && WordsBounded(current + units[i..], bound)
    && done + Pack(current + units[i..], joiner, target, bound) == Pack(units, joiner, target, bound)
  }

  lemma PackBegin(units: seq<string>, joiner: string, target: int, bound: nat)
    requires WordsBounded(units, bound)
    ensures PackSoFar([], [], units, 0, joiner, target, bound)
  {
    assert [] + units[0..] == units;
  }

  lemma OversizedNeverFits(current: seq<string>, unit: string, target: int)
    requires Tokens(unit) > target
    ensures !Fits(current + [unit], target)
  {
    FlatWordsSingleton(unit);
    if Fits(current + [unit], target) {
      assert current + [unit] + [] == current + [unit];
      FitsStretch(current, [unit], [], target);
    }
  }

  lemma PackOversized(units: seq<string>, i: nat, joiner: string, target: int, bound: nat)
    requires WordsBounded(units, bound) && i < |units| && Tokens(units[i]) > target
    ensures WordsBounded(units[i..], bound) && WordsBounded(units[i + 1..], bound)
    ensures Pack(units[i..], joiner, target, bound)
         == HardSplit(units[i], target) + Pack(units[i + 1..], joiner, target, bound)
  {
    hide HardSplit;
    assert units[i..][0] == units[i] && units[i..][1..] == units[i + 1..];
  }

  /** An oversized unit closes the open group and contributes its hard split. */
  lemma PackSplit(
    done: seq<string>, current: seq<string>, units: seq<string>, i: nat, joiner: string, target: int, bound: nat)
    requires WordsBounded(units, bound) && i < |units| && Tokens(units[i]) > target
    requires PackSoFar(done, current, units, i, joiner, target, bound)
    ensures PackSoFar(
      (if current == [] then done else done + [Join(joiner, current)]) + HardSplit(units[i], target),
      [], units, i + 1, joiner, target, bound)
  {
    hide Pack, HardSplit, Fits, Words, FlatWords, Tokens, WordsBounded;
    var rest := units[i..];
    assert rest[0] == units[i] && [] + units[i + 1..] == units[i + 1..];
    PackOversized(units, i, joiner, target, bound);
    if current == [] {
      assert current + rest == rest;
    } else {
      OversizedNeverFits(current, units[i], target);
      ClosePack(current, rest, joiner, target, bound);
    }
  }

  lemma PackStep(
    done: seq<string>, current: seq<string>, units: seq<string>, i: nat, joiner: string, target: int, bound: nat)
    requires WordsBounded(units, bound) && i < |units| && Tokens(units[i]) <= target
    requires PackSoFar(done, current, units, i, joiner, target, bound)
    ensures current != [] && !Fits(current + [units[i]], target) ==>
              PackSoFar(done + [Join(joiner, current)], [units[i]], units, i + 1, joiner, target, bound)
    ensures current == [] || Fits(current + [units[i]], target) ==>
              PackSoFar(done, current + [units[i]], units, i + 1, joiner, target, bound)
  {
    hide Pack;
    FlatWordsSingleton(units[i]);
    assert [] + [units[i]] == [units[i]];
    assert units[i..] == [units[i]] + units[i + 1..];
    assert current + units[i..] == (current + [units[i]]) + units[i + 1..];
    if current != [] && !Fits(current + [units[i]], target) {
      ClosePack(current, units[i..], joiner, target, bound);
    }
  }

  predicate SmallUnits(units: seq<string>, target: int) {
    forall i | 0 <= i < |units| :: Tokens(units[i]) <= target
  }

  /** The first run of a stretch of small units is the first chunk, whatever follows the stretch. */
  lemma FirstRunOfStretch(stretch: seq<string>, rest: seq<string>, joiner: string, target: int, bound: nat)
    requires WordsBounded(stretch + rest, bound)
    requires stretch != [] && SmallUnits(stretch, target) && (rest != [] ==> Tokens(rest[0]) > target)
    ensures var n := LongestPrefix(stretch, target);
            && WordsBounded(stretch[n..] + rest, bound) && SmallUnits(stretch[n..], target)
            && Pack(stretch + rest, joiner, target, bound)
               == [Join(joiner, stretch[..n])] + Pack(stretch[n..] + rest, joiner, target, bound)
  {
    hide Pack, Tokens;
    var n := LongestPrefix(stretch, target);
    var run, more := stretch[..n], stretch[n..];
    assert stretch + rest == run + (more + rest);
    BoundedTail(run, more + rest, bound);
    SmallPrefixFits(stretch, n, target);
    hide Fits, WordsBounded;
    if more != [] {
      assert stretch[..n + 1] == run + [more[0]];
    } else if rest != [] {
      assert more + rest == rest;
      OversizedNeverFits(run, rest[0], target);
    }
    ClosePack(run, more + rest, joiner, target, bound);
  }

  lemma BoundedTail(a: seq<string>, b: seq<string>, bound: nat)
    requires WordsBounded(a + b, bound)
    ensures WordsBounded(b, bound)
  {
    forall i | 0 <= i < |b| ensures |Words(b[i])| <= bound {
      assert b[i] == (a + b)[|a| + i];
    }
  }

  /**
   A stretch of units that each fit, up to an oversized unit or the end, is packed on its own, and
   with the fewest chunks: the hard splits around it cost nothing.
   */
  lemma {:induction false} PackStretchIsFewest(
    stretch: seq<string>, rest: seq<string>, joiner: string, target: int, bound: nat)
    requires WordsBounded(stretch + rest, bound) && WordsBounded(rest, bound)
    requires SmallUnits(stretch, target) && (rest != [] ==> Tokens(rest[0]) > target)
    ensures Pack(stretch + rest, joiner, target, bound)
         == Runs(stretch, joiner, target) + Pack(rest, joiner, target, bound)
    ensures forall p | Packing(p, stretch, target) :: |Runs(stretch, joiner, target)| <= |p|
    decreases |stretch|
  {
    hide Pack, Packing, Tokens, WordsBounded, SmallUnits;
    RunsAreFewest(stretch, joiner, target);
    hide Fits;
    if stretch == [] {
      assert stretch + rest == rest;
    } else {
      FirstRunOfStretch(stretch, rest, joiner, target, bound);
      var n := LongestPrefix(stretch, target);
      PackStretchIsFewest(stretch[n..], rest, joiner, target, bound);
      assert Runs(stretch, joiner, target) == [Join(joiner, stretch[..n])] + Runs(stretch[n..], joiner, target);
      hide *;
      RegroupAll([Join(joiner, stretch[..n])], Runs(stretch[n..], joiner, target), Pack(rest, joiner, target, bound));
    }
  }

  /** Units that each fit are only grouped, never cut. */
  lemma PackSmall(units: seq<string>, joiner: string, target: int, bound: nat)
    requires WordsBounded(units, bound) && SmallUnits(units, target)
    ensures Pack(units, joiner, target, bound) == Runs(units, joiner, target)
    ensures GroupedAs(Pack(units, joiner, target, bound), units, joiner, target)
  {
    assert units + [] == units;
    PackStretchIsFewest(units, [], joiner, target, bound);
    RunsAreGrouped(units, joiner, target);
  }

  lemma SmallPrefixFits(units: seq<string>, n: nat, target: int)
    requires units != [] && SmallUnits(units, target) && n == LongestPrefix(units, target)
    ensures Fits(units[..n], target)
  {
    if n == 1 {
      assert units[..1] == [units[0]];
      FlatWordsSingleton(units[0]);
    }
  }

  /** The next unit, oversized or not. */
  lemma PackNext(
    done: seq<string>, current: seq<string>, units: seq<string>, i: nat, joiner: string, target: int, bound: nat)
    requires WordsBounded(units, bound) && i < |units|
    requires PackSoFar(done, current, units, i, joiner, target, bound)
    ensures Tokens(units[i]) > target ==>
              PackSoFar(
                (if current == [] then done else done + [Join(joiner, current)]) + HardSplit(units[i], target),
                [], units, i + 1, joiner, target, bound)
    ensures Tokens(units[i]) <= target && current != [] && !Fits(current + [units[i]], target) ==>
              PackSoFar(done + [Join(joiner, current)], [units[i]], units, i + 1, joiner, target, bound)
    ensures Tokens(units[i]) <= target && (current == [] || Fits(current + [units[i]], target)) ==>
              PackSoFar(done, current + [units[i]], units, i + 1, joiner, target, bound)
  {
    hide *;
    if Tokens(units[i]) > target {
      PackSplit(done, current, units, i, joiner, target, bound);
    } else {
      PackStep(done, current, units, i, joiner, target, bound);
    }
  }

  lemma PackEnd(done: seq<string>, current: seq<string>, units: seq<string>, joiner: string, target: int, bound: nat)
    requires WordsBounded(units, bound)
    requires PackSoFar(done, current, units, |units|, joiner, target, bound)
    ensures Pack(units, joiner, target, bound) == if current == [] then done else done + [Join(joiner, current)]
  {
    assert current + units[|units|..] == current == current + [];
    if current != [] {
      ClosePack(current, [], joiner, target, bound);
    }
  }

  function MaxWords(units: seq<string>): (bound: nat)
    ensures WordsBounded(units, bound)
  {
    if units == [] then 0
    else
      var w, rest := |Words(units[0])|, MaxWords(units[1..]);
      assert forall i | 1 <= i < |units| :: units[i] == units[1..][i - 1];
      if w > rest then w else rest
  }

  function PackAll(units: seq<string>, joiner: string, target: int): seq<string> {
    Pack(units, joiner, target, MaxWords(units))
  }

  /** What a text is packed from: its paragraphs, or the line groups of a lone paragraph. */
  function Segments(text: string, target: int): seq<string> {
    var paragraphs := Paragraphs(text);
    if paragraphs == [] then [if NormalizeNewlines(text) != "" then NormalizeNewlines(text) else text]
    else if |paragraphs| == 1 && '\n' in paragraphs[0] then
      var groups := LineRuns(SplitOn(paragraphs[0], "\n"), target);
      if groups == [] then [paragraphs[0]] else groups
    else paragraphs
  }

  lemma StartsWithOne(t: string, c: char)
    ensures StartsWith(t, [c]) <==> t != "" && t[0] == c
  {
    if t != "" {
      assert t[..1] == [t[0]];
    }
  }

  /** A line holds no line feed. */
  lemma LinesHoldNoFeed(block: string)
    ensures forall line | line in SplitOn(block, "\n") :: '\n' !in line
  {
    NoPartHoldsSeparator(block, "\n");
    hide SplitOn;
    forall line | line in SplitOn(block, "\n") ensures '\n' !in line {
      assert !Occurs("\n", line);
      forall k | 0 <= k < |line| ensures line[k] != '\n' {
        assert !StartsWith(line[k..], "\n");
        StartsWithOne(line[k..], '\n');
      }
    }
  }

  lemma BlankHasNoParagraph(text: string)
    ensures Blank(text) <==> NormalizeNewlines(text) == ""
    ensures Paragraphs(text) == [] <==> Blank(text)
  {
    var t := NormalizeNewlines(text);
    WordsOfNormalize(text);
    StripEmptyIffBlank(CollapseBlankLines(UnixLines(text)));
    WordsOfStrip(CollapseBlankLines(UnixLines(text)));
    WordsOfSplitOn(t, "\n\n");
    WordsOfDropBlank(SplitOn(t, "\n\n"));
    hide NormalizeNewlines, SplitOn, DropBlank, Words;
    var ps := Paragraphs(text);
    assert FlatWords(ps) == Words(text);
    if ps != [] {
      assert !Blank(ps[0]);
    }
  }

  /** Segments are the paragraphs; only a lone paragraph of several lines is cut further, between lines. */
  lemma SegmentsAre(text: string, target: int)
    ensures var ps := Paragraphs(text);
            && (|ps| >= 2 ==> Segments(text, target) == ps)
            && (|ps| == 1 && '\n' !in ps[0] ==> Segments(text, target) == ps)
            && (|ps| == 1 && '\n' in ps[0] && NoBlank(SplitOn(ps[0], "\n")) ==>
                  GroupedAs(Segments(text, target), SplitOn(ps[0], "\n"), "\n", target))
            && (Blank(text) ==> Segments(text, target) == [text])
  {
    BlankHasNoParagraph(text);
    hide NormalizeNewlines;
    var ps := Paragraphs(text);
    hide Paragraphs;
    if |ps| == 1 && '\n' in ps[0] {
      var lines := SplitOn(ps[0], "\n");
      hide SplitOn;
      if NoBlank(lines) {
        LineRunsOfNonBlank(lines, target);
        RunsAreGrouped(lines, "\n", target);
        assert Runs(lines, "\n", target) != [];
      }
    }
  }
}
