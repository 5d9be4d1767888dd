/** The topic forest: walking a subtree, and an independent account of what lies below a node. */
module TopicForest {
  import opened Option

  type Id = nat

  /**
   The active nodes of a space.  `children` is `children_by_parent`; `level` and `height` witness
   that parent chains are finite, as they are in a forest.
   */
  datatype Shape = Shape(parent: map<Id, Option<Id>>, children: map<Id, seq<Id>>, level: map<Id, nat>, height: nat)

  function Level(f: Shape, x: Id): nat {
    if x in f.level then f.level[x] else 0
  }

  function Kids(f: Shape, p: Id): seq<Id> {
    if p in f.children then f.children[p] else []
  }

  function ParentOf(f: Shape, x: Id): Option<Id> {
    if x in f.parent then f.parent[x] else None
  }

  predicate NoRepeats(s: seq<Id>) {
    forall i, j | 0 <= i < j < |s| :: s[i] != s[j]
  }

  predicate IsForest(f: Shape) {
    && (forall x | x in f.parent :: Level(f, x) <= f.height)
    && (forall x | x in f.parent && f.parent[x].Some? :: Level(f, f.parent[x].value) < Level(f, x))
    && (forall p | p in f.children ::
          NoRepeats(f.children[p]) && forall c | c in f.children[p] :: ParentOf(f, c) == Some(p))
    && (forall x | x in f.parent && f.parent[x].Some? :: x in Kids(f, f.parent[x].value))
  }

  type Forest = f: Shape | IsForest(f) witness Shape(map[], map[], map[], 0)

  predicate AllBelow(f: Shape, kids: seq<Id>, level: nat) {
    forall c | c in kids :: c in f.parent && Level(f, c) > level
  }

  /** The preorder walk of `collect_descendant_ids`, over some siblings at a level below `level`. */
  function WalkAll(f: Forest, kids: seq<Id>, level: nat): seq<Id>
    requires AllBelow(f, kids, level)
    decreases f.height - level, |kids|
  {
    if kids == [] then []
    else
      assert kids[0] in kids;
      [kids[0]] + Walk(f, kids[0]) + WalkAll(f, kids[1..], level)
  }

  lemma KidsAreBelow(f: Forest, p: Id)
    ensures AllBelow(f, Kids(f, p), Level(f, p))
    ensures forall c | c in Kids(f, p) :: f.parent[c] == Some(p)
  {
    forall c | c in Kids(f, p)
      ensures c in f.parent && f.parent[c] == Some(p)
    {
      assert ParentOf(f, c) == Some(p);
    }
  }

  lemma KidsNoRepeats(f: Forest, p: Id)
    ensures NoRepeats(Kids(f, p))
  {
  }

  /** All strict descendants of `p`, in preorder. */
  function Walk(f: Forest, p: Id): seq<Id>
    decreases f.height - Level(f, p), |Kids(f, p)| + 1
  {
    KidsAreBelow(f, p);
    WalkAll(f, Kids(f, p), Level(f, p))
  }

  /** The independent definition: `r` is on the parent chain above `x`. */
  predicate Below(f: Forest, x: Id, r: Id)
    decreases Level(f, x)
  {
    && ParentOf(f, x).Some?
    && (ParentOf(f, x).value == r || Below(f, ParentOf(f, x).value, r))
  }

  predicate InSubtree(f: Forest, x: Id, r: Id) {
    x == r || Below(f, x, r)
  }

  lemma {:induction false} BelowIsDeeper(f: Forest, x: Id, r: Id)
    requires Below(f, x, r)
    ensures Level(f, r) < Level(f, x)
    decreases Level(f, x)
  {
    if ParentOf(f, x).value != r {
      BelowIsDeeper(f, ParentOf(f, x).value, r);
    }
  }

  lemma {:induction false} BelowTransitive(f: Forest, x: Id, y: Id, r: Id)
    requires Below(f, x, y) && Below(f, y, r)
    ensures Below(f, x, r)
    decreases Level(f, x)
  {
    if ParentOf(f, x).value != y {
      BelowTransitive(f, ParentOf(f, x).value, y, r);
    }
  }

  /** Everything the walk lists lies below one of the siblings walked, or is one. */
  lemma {:induction false} WalkAllSound(f: Forest, kids: seq<Id>, level: nat, x: Id)
    requires AllBelow(f, kids, level)
    requires x in WalkAll(f, kids, level)
    ensures exists c | c in kids :: InSubtree(f, x, c)
    decreases f.height - level, |kids|
  {
    var k := kids[0];
    assert k in kids;
    if x == k {
    } else if x in Walk(f, k) {
      WalkSound(f, k, x);
    } else {
      WalkAllSound(f, kids[1..], level, x);
      var c :| c in kids[1..] && InSubtree(f, x, c);
      assert c in kids;
    }
  }

  lemma {:induction false} WalkSound(f: Forest, p: Id, x: Id)
    requires x in Walk(f, p)
    ensures Below(f, x, p)
    decreases f.height - Level(f, p), |Kids(f, p)| + 1
  {
    KidsAreBelow(f, p);
    WalkAllSound(f, Kids(f, p), Level(f, p), x);
    var c :| c in Kids(f, p) && InSubtree(f, x, c);
    assert Below(f, c, p);
    if x != c {
      BelowTransitive(f, x, c, p);
    }
  }

  lemma {:induction false} WalkAllHasKidWalk(f: Forest, kids: seq<Id>, level: nat, c: Id, x: Id)
    requires AllBelow(f, kids, level)
    requires c in kids && (x == c || x in Walk(f, c))
    ensures x in WalkAll(f, kids, level)
    decreases |kids|
  {
    if c != kids[0] {
      assert c in kids[1..];
      WalkAllHasKidWalk(f, kids[1..], level, c, x);
    }
  }

  /** A child of anything listed is listed. */
  lemma {:induction false} WalkAllClosed(f: Forest, kids: seq<Id>, level: nat, y: Id, c: Id)
    requires AllBelow(f, kids, level)
    requires y in WalkAll(f, kids, level) && c in Kids(f, y)
    ensures c in WalkAll(f, kids, level)
    decreases f.height - level, |kids|
  {
    var k := kids[0];
    assert k in kids;
    if y == k {
      WalkHasKid(f, k, c);
    } else if y in Walk(f, k) {
      KidsAreBelow(f, k);
      WalkAllClosed(f, Kids(f, k), Level(f, k), y, c);
    } else {
      WalkAllClosed(f, kids[1..], level, y, c);
    }
  }

  lemma WalkHasKid(f: Forest, p: Id, c: Id)
    requires c in Kids(f, p)
    ensures c in Walk(f, p)
  {
    KidsAreBelow(f, p);
    WalkAllHasKidWalk(f, Kids(f, p), Level(f, p), c, c);
  }

  lemma {:induction false} WalkComplete(f: Forest, p: Id, x: Id)
    requires Below(f, x, p)
    ensures x in Walk(f, p)
    decreases Level(f, x)
  {
    var q := ParentOf(f, x).value;
    assert x in Kids(f, q);
    if q == p {
      WalkHasKid(f, p, x);
    } else {
      WalkComplete(f, p, q);
      KidsAreBelow(f, p);
      WalkAllClosed(f, Kids(f, p), Level(f, p), q, x);
    }
  }

  /** Subtrees of different siblings are disjoint. */
  lemma {:induction false} OneBranch(f: Forest, x: Id, a: Id, b: Id)
    requires InSubtree(f, x, a) && InSubtree(f, x, b)
    requires ParentOf(f, a).Some? && ParentOf(f, a) == ParentOf(f, b)
    ensures a == b
    decreases Level(f, x)
  {
    if x == a {
      SiblingNotBelow(f, a, b);
    } else if x == b {
      SiblingNotBelow(f, b, a);
    } else {
      OneBranch(f, ParentOf(f, x).value, a, b);
    }
  }

  lemma SiblingNotBelow(f: Forest, a: Id, b: Id)
    requires ParentOf(f, a).Some? && ParentOf(f, a) == ParentOf(f, b)
    ensures !Below(f, a, b)
  {
    var p := ParentOf(f, a).value;
    if Below(f, p, b) {
      BelowIsDeeper(f, p, b);
    }
  }

  lemma {:induction false} WalkAllNoRepeats(f: Forest, kids: seq<Id>, level: nat, p: Id)
    requires AllBelow(f, kids, level) && forall c | c in kids :: f.parent[c] == Some(p)
    requires NoRepeats(kids)
    ensures NoRepeats(WalkAll(f, kids, level))
    decreases f.height - level, |kids|
  {
    if kids != [] {
      var k := kids[0];
      assert k in kids;
      KidsAreBelow(f, k);
      WalkAllNoRepeats(f, Kids(f, k), Level(f, k), k);
      WalkAllNoRepeats(f, kids[1..], level, p);
      forall x | x in Walk(f, k) ensures x != k && x !in WalkAll(f, kids[1..], level) {
        WalkSound(f, k, x);
        BelowIsDeeper(f, x, k);
        NotInOtherBranches(f, kids, level, p, x);
      }
      NotInOtherBranches(f, kids, level, p, k);
      ConcatNoRepeats([k], Walk(f, k));
      ConcatNoRepeats([k] + Walk(f, k), WalkAll(f, kids[1..], level));
    }
  }

  lemma NotInOtherBranches(f: Forest, kids: seq<Id>, level: nat, p: Id, x: Id)
    requires kids != [] && NoRepeats(kids)
    requires AllBelow(f, kids, level) && forall c | c in kids :: f.parent[c] == Some(p)
    requires InSubtree(f, x, kids[0])
    ensures x !in WalkAll(f, kids[1..], level)
  {
    if x in WalkAll(f, kids[1..], level) {
      WalkAllSound(f, kids[1..], level, x);
      var c :| c in kids[1..] && InSubtree(f, x, c);
      assert kids[0] in kids && c in kids;
      OneBranch(f, x, kids[0], c);
    }
  }

  lemma ConcatNoRepeats(a: seq<Id>, b: seq<Id>)
    requires NoRepeats(a) && NoRepeats(b) && forall x | x in a :: x !in b
    ensures NoRepeats(a + b)
  {
    forall i, j | 0 <= i < j < |a + b| ensures (a + b)[i] != (a + b)[j] {
      if i < |a| <= j {
        assert a[i] in a && b[j - |a|] in b;
      }
    }
  }

  /** `collect_descendant_ids` lists each strict descendant exactly once and nothing else. */
  lemma DescendantsExact(f: Forest, r: Id)
    ensures NoRepeats(Walk(f, r))
    ensures forall x :: x in Walk(f, r) <==> Below(f, x, r)
    ensures r !in Walk(f, r)
  {
    KidsAreBelow(f, r);
    if r in f.children {
      WalkAllNoRepeats(f, Kids(f, r), Level(f, r), r);
    }
    forall x ensures x in Walk(f, r) <==> Below(f, x, r) {
      if x in Walk(f, r) {
        WalkSound(f, r, x);
      }
      if Below(f, x, r) {
        WalkComplete(f, r, x);
      }
    }
    if r in Walk(f, r) {
      BelowIsDeeper(f, r, r);
    }
  }

  lemma WalkAllStep(f: Forest, kids: seq<Id>, i: nat, level: nat)
    requires i < |kids| && AllBelow(f, kids[i..], level)
    ensures AllBelow(f, kids[i + 1..], level) && Level(f, kids[i]) > level
    ensures WalkAll(f, kids[i..], level) == [kids[i]] + Walk(f, kids[i]) + WalkAll(f, kids[i + 1..], level)
  {
    assert kids[i] in kids[i..];
    assert kids[i..][1..] == kids[i + 1..];
  }

  lemma WalkIsWalkAll(f: Forest, p: Id)
    ensures AllBelow(f, Kids(f, p), Level(f, p)) && Walk(f, p) == WalkAll(f, Kids(f, p), Level(f, p))
  {
    KidsAreBelow(f, p);
  }

  lemma WalkAllNone(f: Forest, level: nat)
    ensures WalkAll(f, [], level) == []
  {
  }

  lemma LevelAtMostHeight(f: Forest, c: Id)
    requires c in f.parent
    ensures Level(f, c) <= f.height
  {
  }

  /** The list that the nested `walk` appends to. */
  class DescendantCollector {
    var collected: seq<Id>

    constructor ()
      ensures collected == []
    {
      collected := [];
    }

    method Visit(f: Forest, p: Id)
      modifies this
      ensures collected == old(collected) + Walk(f, p)
      decreases f.height - Level(f, p)
    {
      hide Walk, WalkAll, IsForest;
      KidsAreBelow(f, p);
      var kids := Kids(f, p);
      var level := Level(f, p);
      assert kids[0..] == kids && Walk(f, p) == WalkAll(f, kids, level) by { WalkIsWalkAll(f, p); }
      for i := 0 to |kids|
        invariant AllBelow(f, kids[i..], level)
        invariant collected + WalkAll(f, kids[i..], level) == old(collected) + WalkAll(f, kids, level)
      {
        var before := collected;
        WalkAllStep(f, kids, i, level);
        collected := collected + [kids[i]];
        LevelAtMostHeight(f, kids[i]);
        Visit(f, kids[i]);
        assert collected == before + ([kids[i]] + Walk(f, kids[i]));
      }
      assert kids[|kids|..] == [];
      WalkAllNone(f, level);
    }
  }

  /** `collect_descendant_ids` */
  method CollectDescendantIds(f: Forest, r: Id) returns (ids: seq<Id>)
    ensures ids == Walk(f, r)
    ensures NoRepeats(ids) && r !in ids
    ensures forall x :: x in ids <==> Below(f, x, r)
  {
    DescendantsExact(f, r);
    var collector := new DescendantCollector();
    collector.Visit(f, r);
    ids := collector.collected;
  }
}
