/** Subtree rollups: units, completed units and summed percentage below a node. */
module LearningUnits {
  import opened Option
  import opened Completion
  import opened TopicForest

  type Progress = map<Id, Snapshot>

  /** Every snapshot was derived from its facts, with the quizzes that were published when it was loaded. */
  predicate DerivedWith(progress: Progress, quizNodes: set<Id>) {
    forall x | x in progress :: progress[x] == SnapshotFromRow(progress[x].facts, x in quizNodes)
  }

  /** The independent meaning of a learning unit of a subtree. */
  function Units(f: Forest, published: set<Id>, r: Id): set<Id> {
    set x | x in published && InSubtree(f, x, r)
  }

  function CompleteNodes(progress: Progress, quizNodes: set<Id>): set<Id> {
    set x | x in progress && IsLearningUnitComplete(progress[x].facts, x in quizNodes)
  }

  /** Nodes with a published quiz of which exactly one of reading and quiz is done. */
  function HalfDoneNodes(progress: Progress, quizNodes: set<Id>): set<Id> {
    set x | x in progress && x in quizNodes && progress[x].facts.studyCompleted != progress[x].facts.quizPassed
  }

  function Elements(s: seq<Id>): set<Id> {
    set x | x in s
  }

  function CountIn(s: seq<Id>, p: set<Id>): nat {
    if s == [] then 0 else CountIn(s[..|s| - 1], p) + if s[|s| - 1] in p then 1 else 0
  }

  lemma ElementsSnoc(s: seq<Id>, p: set<Id>)
    requires NoRepeats(s) && s != []
    ensures var n := |s| - 1;
            && NoRepeats(s[..n])
            && |Elements(s) * p| == |Elements(s[..n]) * p| + if s[n] in p then 1 else 0
  {
    var n := |s| - 1;
    assert s[n] !in Elements(s[..n]);
    assert forall x :: x in Elements(s) <==> x in Elements(s[..n]) || x == s[n] by {
      assert s == s[..n] + [s[n]];
    }
    if s[n] in p {
      assert Elements(s) * p == Elements(s[..n]) * p + {s[n]};
    } else {
      assert Elements(s) * p == Elements(s[..n]) * p;
    }
  }

  lemma {:induction false} CountIsCardinality(s: seq<Id>, p: set<Id>)
    requires NoRepeats(s)
    ensures CountIn(s, p) == |Elements(s) * p|
  {
    hide NoRepeats;
    if s == [] {
      assert Elements(s) * p == {};
    } else {
      hide Elements;
      ElementsSnoc(s, p);
      CountIsCardinality(s[..|s| - 1], p);
    }
  }

  lemma CandidatesExact(f: Forest, r: Id)
    ensures NoRepeats([r] + Walk(f, r))
    ensures forall x :: x in Elements([r] + Walk(f, r)) <==> InSubtree(f, x, r)
  {
    DescendantsExact(f, r);
    ConcatNoRepeats([r], Walk(f, r));
  }

  /** Counting the walk's members of `p` counts the members of `p` in the subtree. */
  lemma CountInSubtree(f: Forest, r: Id, p: set<Id>)
    ensures CountIn([r] + Walk(f, r), p) == |Units(f, p, r)|
  {
    CandidatesExact(f, r);
    CountIsCardinality([r] + Walk(f, r), p);
    assert Elements([r] + Walk(f, r)) * p == Units(f, p, r);
  }

  lemma {:induction false} CountAppend(s: seq<Id>, t: seq<Id>, p: set<Id>)
    ensures CountIn(s + t, p) == CountIn(s, p) + CountIn(t, p)
  {
    if t == [] {
      assert s + t == s;
    } else {
      assert (s + t)[..|s + t| - 1] == s + t[..|t| - 1];
      CountAppend(s, t[..|t| - 1], p);
    }
  }

  /** `count_learning_units` */
  method CountLearningUnits(f: Forest, r: Id, published: set<Id>) returns (total: nat)
    ensures total == |Units(f, published, r)|
  {
    hide Walk, NoRepeats, InSubtree;
    total := if r in published then 1 else 0;
    var ids := CollectDescendantIds(f, r);
    for i := 0 to |ids|
      invariant total == CountIn([r], published) + CountIn(ids[..i], published)
    {
      assert ids[..i + 1][..i] == ids[..i];
      if ids[i] in published {
        total := total + 1;
      }
    }
    assert ids[..|ids|] == ids;
    CountAppend([r], ids, published);
    CountInSubtree(f, r, published);
  }

  /** `has_accessible_learning_content` as a specification. */
  predicate Accessible(f: Forest, published: set<Id>, r: Id) {
    exists x :: x in published && InSubtree(f, x, r)
  }

  method HasAccessibleLearningContent(f: Forest, r: Id, published: set<Id>) returns (yes: bool)
    ensures yes <==> Accessible(f, published, r)
  {
    var total := CountLearningUnits(f, r, published);
    yes := total > 0;
    if Accessible(f, published, r) {
      ghost var x :| x in published && InSubtree(f, x, r);
      assert x in Units(f, published, r);
    }
    if yes {
      ghost var x :| x in Units(f, published, r);
    }
  }

  /** `count_completed_learning_units` */
  method CountCompletedLearningUnits(f: Forest, r: Id, published: set<Id>, progress: Progress, quizNodes: set<Id>)
    returns (completed: nat)
    ensures completed == |Units(f, published, r) * CompleteNodes(progress, quizNodes)|
  {
    hide Walk, NoRepeats, InSubtree, IsLearningUnitComplete;
    completed := 0;
    var ids := CollectDescendantIds(f, r);
    ids := [r] + ids;
    ghost var done := published * CompleteNodes(progress, quizNodes);
    for i := 0 to |ids|
      invariant completed == CountIn(ids[..i], done)
    {
      assert ids[..i + 1][..i] == ids[..i];
      if ids[i] in published && ids[i] in progress {
        if IsLearningUnitComplete(progress[ids[i]].facts, ids[i] in quizNodes) {
          completed := completed + 1;
        }
      }
    }
    assert ids[..|ids|] == ids;
    CountInSubtree(f, r, done);
    assert Units(f, done, r) == Units(f, published, r) * CompleteNodes(progress, quizNodes);
  }

  function PercentageOf(x: Id, published: set<Id>, progress: Progress): int {
    if x in published && x in progress then progress[x].percentage else 0
  }

  function PercentageSum(s: seq<Id>, published: set<Id>, progress: Progress): int {
    if s == [] then 0
    else
      var n := |s| - 1;
      PercentageSum(s[..n], published, progress) + PercentageOf(s[n], published, progress)
  }

  /** `sum_subtree_progress_percentage` */
  method SumSubtreeProgressPercentage(f: Forest, r: Id, published: set<Id>, progress: Progress) returns (total: int)
    ensures total == PercentageSum([r] + Walk(f, r), published, progress)
  {
    hide Walk, NoRepeats, Below;
    total := 0;
    var ids := CollectDescendantIds(f, r);
    ids := [r] + ids;
    for i := 0 to |ids|
      invariant total == PercentageSum(ids[..i], published, progress)
    {
      assert ids[..i + 1][..i] == ids[..i];
      if ids[i] in published {
        if ids[i] in progress {
          total := total + progress[ids[i]].percentage;
        }
      }
    }
    assert ids[..|ids|] == ids;
  }

  lemma {:induction false} SumByKind(s: seq<Id>, published: set<Id>, progress: Progress, quizNodes: set<Id>)
    requires DerivedWith(progress, quizNodes)
    ensures PercentageSum(s, published, progress)
         == 100 * CountIn(s, published * CompleteNodes(progress, quizNodes))
            + 50 * CountIn(s, published * HalfDoneNodes(progress, quizNodes))
  {
    if s != [] {
      SumByKind(s[..|s| - 1], published, progress, quizNodes);
      var x := s[|s| - 1];
      if x in progress {
        assert progress[x].percentage == ComputeProgressPercentage(progress[x].facts, x in quizNodes);
      }
    }
  }

  /** The summed percentage is 100 for each finished unit and 50 for each half-finished one. */
  lemma SumIsExact(f: Forest, r: Id, published: set<Id>, progress: Progress, quizNodes: set<Id>)
    requires DerivedWith(progress, quizNodes)
    ensures PercentageSum([r] + Walk(f, r), published, progress)
         == 100 * |Units(f, published, r) * CompleteNodes(progress, quizNodes)|
            + 50 * |Units(f, published, r) * HalfDoneNodes(progress, quizNodes)|
  {
    var complete, half := CompleteNodes(progress, quizNodes), HalfDoneNodes(progress, quizNodes);
    SumByKind([r] + Walk(f, r), published, progress, quizNodes);
    CountInSubtree(f, r, published * complete);
    CountInSubtree(f, r, published * half);
    assert Units(f, published * complete, r) == Units(f, published, r) * complete;
    assert Units(f, published * half, r) == Units(f, published, r) * half;
  }

  lemma SubsetCardinality(a: set<Id>, b: set<Id>)
    requires a <= b
    ensures |a| <= |b| && (|a| == |b| <==> a == b)
  {
    assert b == a + (b - a);
  }

  lemma WeightedBounds(units: set<Id>, complete: set<Id>, half: set<Id>, sum: int)
    requires complete !! half
    requires sum == 100 * |units * complete| + 50 * |units * half|
    ensures 100 * |units * complete| <= sum <= 100 * |units|
    ensures sum == 100 * |units| <==> units <= complete
    ensures sum == 0 <==> units * (complete + half) == {}
  {
    var a, b := units * complete, units * half;
    assert units * (complete + half) == a + b;
    assert |a + b| == |a| + |b|;
    SubsetCardinality(a + b, units);
    SubsetCardinality(a, units);
  }

  /** Whatever is complete with more quizzes to pass is complete with fewer. */
  lemma CompleteUnderMoreQuizzes(row: ProgressRow, seen: bool, counted: bool)
    requires seen ==> counted
    ensures IsLearningUnitComplete(row, counted) ==> IsLearningUnitComplete(row, seen)
  {
  }

  lemma CompletedAreSeenComplete(units: set<Id>, progress: Progress, seen: set<Id>, counted: set<Id>)
    requires units * seen <= counted
    ensures units * CompleteNodes(progress, counted) <= units * CompleteNodes(progress, seen)
  {
    forall x | x in units && x in progress && IsLearningUnitComplete(progress[x].facts, x in counted)
      ensures IsLearningUnitComplete(progress[x].facts, x in seen)
    {
      CompleteUnderMoreQuizzes(progress[x].facts, x in seen, x in counted);
    }
  }

  lemma CompleteIsNotHalfDone(progress: Progress, quizNodes: set<Id>)
    ensures CompleteNodes(progress, quizNodes) !! HalfDoneNodes(progress, quizNodes)
  {
    forall x | x in CompleteNodes(progress, quizNodes) ensures x !in HalfDoneNodes(progress, quizNodes) {
      assert IsLearningUnitComplete(progress[x].facts, x in quizNodes);
    }
  }

  /**
   The average shown on a panel reaches 100 exactly when every published unit of the subtree is
   complete as its snapshot saw it, and it is bounded by the completed units as long as the count
   sees every quiz of the subtree that the snapshots saw.
   */
  lemma RollupBounds(
    f: Forest, r: Id, published: set<Id>, progress: Progress, seenQuizzes: set<Id>, countedQuizzes: set<Id>)
    requires DerivedWith(progress, seenQuizzes)
    ensures var units := Units(f, published, r);
            var complete := CompleteNodes(progress, seenQuizzes);
            var sum := PercentageSum([r] + Walk(f, r), published, progress);
            && 0 <= sum <= 100 * |units|
            && (sum == 100 * |units| <==> units <= complete)
            && (sum == 0 <==> units * (complete + HalfDoneNodes(progress, seenQuizzes)) == {})
            && (units * seenQuizzes <= countedQuizzes ==>
                  100 * |units * CompleteNodes(progress, countedQuizzes)| <= sum)
  {
    hide Walk, PercentageSum, InSubtree;
    var units := Units(f, published, r);
    var complete, half := CompleteNodes(progress, seenQuizzes), HalfDoneNodes(progress, seenQuizzes);
    SumIsExact(f, r, published, progress, seenQuizzes);
    CompleteIsNotHalfDone(progress, seenQuizzes);
    WeightedBounds(units, complete, half, PercentageSum([r] + Walk(f, r), published, progress));
    if units * seenQuizzes <= countedQuizzes {
      CompletedAreSeenComplete(units, progress, seenQuizzes, countedQuizzes);
      SubsetCardinality(units * CompleteNodes(progress, countedQuizzes), units * complete);
    }
  }

  /** The lower bound for one state of a trainee's progress. */
  predicate BoundedByCompleted(
    f: Forest, r: Id, published: set<Id>, progress: Progress, countedQuizzes: set<Id>)
  {
    100 * |Units(f, published, r) * CompleteNodes(progress, countedQuizzes)|
      <= PercentageSum([r] + Walk(f, r), published, progress)
  }

  /** The snapshot of somebody who has read a node with a quiz and not passed the quiz. */
  function ReadOnly(): ProgressRow {
    ProgressRow(100, true, false, 0)
  }

  /** Read, and counted without its quiz: one unit counts as completed and contributes 50. */
  lemma ReadNodeCountedWithoutItsQuiz(
    f: Forest, r: Id, published: set<Id>, seenQuizzes: set<Id>, countedQuizzes: set<Id>, x: Id)
    requires x in Units(f, published, r) && x in seenQuizzes && x !in countedQuizzes
    ensures var progress := map[x := SnapshotFromRow(ReadOnly(), true)];
            && DerivedWith(progress, seenQuizzes)
            && |Units(f, published, r) * CompleteNodes(progress, countedQuizzes)| == 1
            && PercentageSum([r] + Walk(f, r), published, progress) == 50
            && !BoundedByCompleted(f, r, published, progress, countedQuizzes)
  {
    hide Walk, PercentageSum, InSubtree;
    var progress := map[x := SnapshotFromRow(ReadOnly(), true)];
    var units := Units(f, published, r);
    SumIsExact(f, r, published, progress, seenQuizzes);
    assert units * CompleteNodes(progress, countedQuizzes) == {x};
    assert units * CompleteNodes(progress, seenQuizzes) == {};
    assert units * HalfDoneNodes(progress, seenQuizzes) == {x};
  }

  /**
   When the completed units bound the sum for every trainee: exactly if the count is given every
   quiz of the subtree that the snapshots were derived with.
   */
  lemma LowerBoundExactlyWhen(f: Forest, r: Id, published: set<Id>, seenQuizzes: set<Id>, countedQuizzes: set<Id>)
    ensures (forall progress | DerivedWith(progress, seenQuizzes) ::
               BoundedByCompleted(f, r, published, progress, countedQuizzes))
       <==> Units(f, published, r) * seenQuizzes <= countedQuizzes
  {
    hide PercentageSum, Walk, InSubtree, DerivedWith;
    if Units(f, published, r) * seenQuizzes <= countedQuizzes {
      forall progress | DerivedWith(progress, seenQuizzes)
        ensures BoundedByCompleted(f, r, published, progress, countedQuizzes)
      {
        RollupBounds(f, r, published, progress, seenQuizzes, countedQuizzes);
      }
    } else {
      var x :| x in Units(f, published, r) * seenQuizzes && x !in countedQuizzes;
      ReadNodeCountedWithoutItsQuiz(f, r, published, seenQuizzes, countedQuizzes, x);
    }
  }

  /** The one-node forest, and the default of the count, which sees no quiz at all. */
  lemma DefaultCountBreaksTheBound()
    ensures var f: Forest := Shape(map[1 := None], map[], map[], 0);
            var progress := map[1 := SnapshotFromRow(ReadOnly(), true)];
            && DerivedWith(progress, {1})
            && PercentageSum([1] + Walk(f, 1), {1}, progress) == 50
            && |Units(f, {1}, 1) * CompleteNodes(progress, {})| == 1
  {
    var f: Forest := Shape(map[1 := None], map[], map[], 0);
    assert 1 in Units(f, {1}, 1);
    ReadNodeCountedWithoutItsQuiz(f, 1, {1}, {1}, {}, 1);
  }
}
