/**
 Why first-fit packing of a sequence is optimal.

 A packing cuts a sequence of units into consecutive groups.  The chunker closes a group only when
 the next unit no longer fits; every packing built that way has the fewest groups of all packings
 whose groups fit.
 */
module Greedy {
  import opened Text

  /** `int(words * 1.3)`, with exact arithmetic. */
  function TokensFor(words: nat): (tokens: nat)
    ensures 10 * tokens <= 13 * words < 10 * tokens + 10
  {
    13 * words / 10
  }

  /** `rough_token_count` */
  function Tokens(t: string): nat {
    TokensFor(|Words(t)|)
  }

  /** Whether these units, joined into one chunk, stay within the target. */
  predicate Fits(units: seq<string>, target: int) {
    TokensFor(|FlatWords(units)|) <= target
  }

  function Flat(groups: seq<seq<string>>): seq<string> {
    if groups == [] then [] else groups[0] + Flat(groups[1..])
  }

  /** A contiguous partition of `units`, all of whose groups fit the target. */
  predicate Packing(groups: seq<seq<string>>, units: seq<string>, target: int) {
    && Flat(groups) == units
    && forall i | 0 <= i < |groups| :: Fits(groups[i], target)
  }

  /** Non-empty groups, none of which could have taken the unit that opens the next one. */
  predicate FirstFit(groups: seq<seq<string>>, target: int) {
    && (forall i | 0 <= i < |groups| :: groups[i] != [])
    && (forall i | 0 <= i < |groups| - 1 :: !Fits(groups[i] + [groups[i + 1][0]], target))
  }

  lemma FlatAppend(a: seq<seq<string>>, b: seq<seq<string>>)
    ensures Flat(a + b) == Flat(a) + Flat(b)
  {
    if a == [] {
      assert a + b == b;
    } else {
      assert (a + b)[1..] == a[1..] + b;
    }
  }

  lemma FlatSnoc(groups: seq<seq<string>>, g: seq<string>)
    ensures Flat(groups + [g]) == Flat(groups) + g
  {
    FlatAppend(groups, [g]);
    assert Flat([g]) == g;
  }

  /** A stretch of a group that fits also fits. */
  lemma FitsStretch(before: seq<string>, mid: seq<string>, after: seq<string>, target: int)
    requires Fits(before + mid + after, target)
    ensures Fits(mid, target)
  {
    FlatWordsAppend(before + mid, after);
    FlatWordsAppend(before, mid);
  }

  /** A group that fits cannot reach past a stretch that does not. */
  lemma FirstGroupReach(lead: seq<string>, g: seq<string>, next: string, tail: seq<string>,
                        p: seq<string>, other: seq<string>, target: int)
    requires lead + (g + [next] + tail) == p + other
    requires Fits(p, target) && !Fits(g + [next], target)
    ensures |p| <= |lead| + |g|
  {
    if |p| > |lead| + |g| {
      var after := p[|lead| + |g| + 1..];
      assert p == (p + other)[..|p|];
      assert p == lead + (g + [next]) + after;
      FitsStretch(lead, g + [next], after, target);
    }
  }

  lemma FirstFitTail(greedy: seq<seq<string>>, target: int)
    requires FirstFit(greedy, target) && |greedy| > 1
    ensures FirstFit(greedy[1..], target)
    ensures greedy[0] != [] && greedy[1] != [] && !Fits(greedy[0] + [greedy[1][0]], target)
  {
    hide Fits;
    assert !Fits(greedy[0] + [greedy[0 + 1][0]], target);
    forall i | 0 <= i < |greedy[1..]| - 1
      ensures !Fits(greedy[1..][i] + [greedy[1..][i + 1][0]], target)
    {
      assert !Fits(greedy[i + 1] + [greedy[i + 1 + 1][0]], target);
    }
  }

  /** Taking `p` off the front leaves the rest of what is in front of `more`, and `more`. */
  lemma TakeFront(lead: seq<string>, g: seq<string>, more: seq<string>, p: seq<string>, others: seq<string>)
    requires lead + (g + more) == p + others && |p| <= |lead + g|
    ensures others == (lead + g)[|p|..] + more
  {
    assert others == (p + others)[|p|..];
    assert lead + (g + more) == (lead + g) + more;
    assert ((lead + g) + more)[|p|..] == (lead + g)[|p|..] + more;
  }

  lemma SplitSecond(g: seq<string>, second: seq<string>, more: seq<string>)
    requires second != []
    ensures g + (second + more) == g + [second[0]] + (second[1..] + more)
  {
  }

  /** The first group of any packing ends within the first-fit group, or before it. */
  lemma FirstGroupEnds(greedy: seq<seq<string>>, lead: seq<string>, p: seq<string>, others: seq<string>, target: int)
    requires FirstFit(greedy, target) && |greedy| > 1
    requires lead + Flat(greedy) == p + others && Fits(p, target)
    ensures |p| <= |lead + greedy[0]|
  {
    FirstFitTail(greedy, target);
    hide Fits, FirstFit;
    var g, rest := greedy[0], greedy[1..];
    var tail := rest[0][1..] + Flat(rest[1..]);
    assert Flat(greedy) == g + (rest[0] + Flat(rest[1..]));
    hide Flat;
    SplitSecond(g, rest[0], Flat(rest[1..]));
    FirstGroupReach(lead, g, rest[0][0], tail, p, others, target);
  }

  /** What is left of any packing once its first group is taken off. */
  lemma FirstGroupLeaves(greedy: seq<seq<string>>, lead: seq<string>, other: seq<seq<string>>, target: int)
    requires FirstFit(greedy, target) && |greedy| > 1
    requires Packing(other, lead + Flat(greedy), target)
    ensures other != [] && |other[0]| <= |lead + greedy[0]|
    ensures Packing(other[1..], (lead + greedy[0])[|other[0]|..] + Flat(greedy[1..]), target)
  {
    FirstFitTail(greedy, target);
    hide Fits, FirstFit;
    assert Flat(greedy) == greedy[0] + Flat(greedy[1..]);
    assert |lead + Flat(greedy)| > 0;
    assert other != [];
    FirstGroupEnds(greedy, lead, other[0], Flat(other[1..]), target);
    TakeFront(lead, greedy[0], Flat(greedy[1..]), other[0], Flat(other[1..]));
  }

  /**
   First fit stays ahead: whenever a fitting packing still has all of the first-fit packing's
   units to place (and perhaps more in front), it needs at least as many groups.
   */
  lemma {:induction false} FirstFitIsFewest(greedy: seq<seq<string>>, lead: seq<string>,
                                            other: seq<seq<string>>, target: int)
    requires FirstFit(greedy, target)
    requires Packing(other, lead + Flat(greedy), target)
    ensures |greedy| <= |other|
    decreases |greedy|
  {
    if |greedy| == 0 {
    } else if |greedy| == 1 {
      assert Flat(greedy) == greedy[0];
      assert other != [];
    } else {
      FirstFitTail(greedy, target);
      FirstGroupLeaves(greedy, lead, other, target);
      hide Fits, FirstFit, Packing;
      FirstFitIsFewest(greedy[1..], (lead + greedy[0])[|other[0]|..], other[1..], target);
    }
  }

  /** One step of the packing loop: the next unit either joins the open group or opens one. */
  lemma FirstFitStep(groups: seq<seq<string>>, current: seq<string>, unit: string, target: int)
    requires current != [] ==> FirstFit(groups + [current], target)
    requires current == [] ==> groups == []
    ensures current != [] && !Fits(current + [unit], target) ==>
              FirstFit(groups + [current] + [[unit]], target)
    ensures current != [] ==> FirstFit(groups + [current + [unit]], target)
  {
    if current != [] {
      var was := groups + [current];
      var grown := groups + [current + [unit]];
      assert forall i | 0 <= i < |groups| :: grown[i] == was[i] && was[i] != [];
      forall i | 0 <= i < |grown| - 1
        ensures !Fits(grown[i] + [grown[i + 1][0]], target)
      {
        assert !Fits(was[i] + [was[i + 1][0]], target);
        assert grown[i + 1][0] == was[i + 1][0];
      }
      var longer := was + [[unit]];
      forall i | 0 <= i < |longer| - 1 && !Fits(current + [unit], target)
        ensures !Fits(longer[i] + [longer[i + 1][0]], target)
      {
        if i < |was| - 1 {
          assert !Fits(was[i] + [was[i + 1][0]], target);
        }
      }
    }
  }

  /** If the units admit any fitting packing at all, every unit fits alone. */
  lemma {:induction false} PackingFitsUnits(groups: seq<seq<string>>, units: seq<string>, target: int)
    requires Packing(groups, units, target)
    ensures forall i | 0 <= i < |units| :: Fits([units[i]], target)
  {
    if groups != [] {
      var g := groups[0];
      PackingFitsUnits(groups[1..], Flat(groups[1..]), target);
      forall i | 0 <= i < |units|
        ensures Fits([units[i]], target)
      {
        if i < |g| {
          assert g == g[..i] + [units[i]] + g[i + 1..];
          FitsStretch(g[..i], [units[i]], g[i + 1..], target);
        } else {
          assert units[i] == Flat(groups[1..])[i - |g|];
        }
      }
    }
  }

  /** `[sep.join(g) for g in groups]` */
  function JoinAll(sep: string, groups: seq<seq<string>>): (r: seq<string>)
    ensures |r| == |groups|
  {
    if groups == [] then [] else [Join(sep, groups[0])] + JoinAll(sep, groups[1..])
  }

  lemma JoinAllSnoc(sep: string, groups: seq<seq<string>>, g: seq<string>)
    ensures JoinAll(sep, groups + [g]) == JoinAll(sep, groups) + [Join(sep, g)]
  {
    if groups != [] {
      assert (groups + [g])[1..] == groups[1..] + [g];
    } else {
      assert groups + [g] == [g];
    }
  }

  /**
   A packing seen from outside: consecutive groups, each one unit or units that fit together, none of
   which could have taken the unit behind it.
   */
  ghost predicate Grouping(groups: seq<seq<string>>, units: seq<string>, target: int) {
    && FirstFit(groups, target)
    && Flat(groups) == units
    && forall i | 0 <= i < |groups| :: |groups[i]| == 1 || Fits(groups[i], target)
  }

  ghost predicate GroupedAs(chunks: seq<string>, units: seq<string>, joiner: string, target: int) {
    exists groups :: Grouping(groups, units, target) && chunks == JoinAll(joiner, groups)
  }

  lemma PrefixFits(a: seq<string>, b: seq<string>, target: int)
    requires Fits(a + b, target)
    ensures Fits(a, target)
  {
    FlatWordsAppend(a, b);
  }

  /** No grouping opens with a shorter group than another grouping of the same units. */
  lemma NoShorterFirst(a: seq<seq<string>>, b: seq<seq<string>>, units: seq<string>, target: int)
    requires Grouping(a, units, target) && Grouping(b, units, target)
    requires a != [] && b != []
    ensures |b[0]| <= |a[0]|
  {
    hide Fits;
    var n := |a[0]|;
    if n < |b[0]| {
      assert units == a[0] + Flat(a[1..]) == b[0] + Flat(b[1..]);
      assert a[1..] != [];
      assert a[1] == a[1..][0] && units[n] == a[1][0];
      assert a[0] + [a[0 + 1][0]] == units[..n + 1];
      assert b[0] == units[..|b[0]|];
      assert b[0] == units[..n + 1] + units[n + 1..|b[0]|];
      PrefixFits(units[..n + 1], units[n + 1..|b[0]|], target);
      assert false;
    }
  }

  lemma GroupingTail(groups: seq<seq<string>>, units: seq<string>, target: int)
    requires Grouping(groups, units, target) && groups != []
    ensures Grouping(groups[1..], units[|groups[0]|..], target)
  {
    hide Fits;
    if |groups| > 1 {
      FirstFitTail(groups, target);
    }
    assert units == groups[0] + Flat(groups[1..]);
    assert units[|groups[0]|..] == Flat(groups[1..]);
  }

  /** So there is only one: it says exactly what the chunks are. */
  lemma {:induction false} GroupingIsUnique(
    a: seq<seq<string>>, b: seq<seq<string>>, units: seq<string>, target: int)
    requires Grouping(a, units, target) && Grouping(b, units, target)
    ensures a == b
    decreases |a|
  {
    if a == [] {
      assert b == [];
    } else {
      assert b != [] by { assert a[0] != []; }
      NoShorterFirst(a, b, units, target);
      NoShorterFirst(b, a, units, target);
      GroupingTail(a, units, target);
      GroupingTail(b, units, target);
      assert units == a[0] + Flat(a[1..]) == b[0] + Flat(b[1..]);
      assert a[0] == units[..|a[0]|] == b[0];
      hide Grouping;
      GroupingIsUnique(a[1..], b[1..], units[|a[0]|..], target);
      assert a == [a[0]] + a[1..] && b == [b[0]] + b[1..];
    }
  }

  lemma {:induction false} JoinAppend(joiner: string, a: seq<string>, b: seq<string>)
    requires a != [] && b != []
    ensures Join(joiner, a + b) == Join(joiner, a) + joiner + Join(joiner, b)
  {
    var more := a[1..];
    assert a + b == [a[0]] + (more + b) && a == [a[0]] + more;
    JoinCons(joiner, a[0], more + b);
    JoinCons(joiner, a[0], more);
    if more == [] {
      assert more + b == b;
    } else {
      JoinAppend(joiner, more, b);
      hide Join;
      Regroup(a[0] + joiner, Join(joiner, more), joiner, Join(joiner, b));
    }
  }

  lemma Regroup(a: string, b: string, c: string, d: string)
    ensures a + (b + c + d) == (a + b) + c + d
  {
  }

  /** Joining the chunks with their own joiner gives the units joined: nothing between them is lost. */
  lemma {:induction false} JoinOfGroups(joiner: string, groups: seq<seq<string>>)
    requires forall i | 0 <= i < |groups| :: groups[i] != []
    ensures Join(joiner, JoinAll(joiner, groups)) == Join(joiner, Flat(groups))
  {
    if groups != [] {
      var rest := groups[1..];
      JoinOfGroups(joiner, rest);
      JoinCons(joiner, Join(joiner, groups[0]), JoinAll(joiner, rest));
      if rest == [] {
        assert Flat(groups) == groups[0];
      } else {
        assert Flat(rest) != [] by { assert rest[0] == groups[1]; }
        JoinAppend(joiner, groups[0], Flat(rest));
      }
    }
  }

  lemma JoinOfGrouped(chunks: seq<string>, units: seq<string>, joiner: string, target: int)
    requires GroupedAs(chunks, units, joiner, target)
    ensures Join(joiner, chunks) == Join(joiner, units)
  {
    var groups :| Grouping(groups, units, target) && chunks == JoinAll(joiner, groups);
    JoinOfGroups(joiner, groups);
  }
}
