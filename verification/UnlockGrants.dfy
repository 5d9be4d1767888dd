/** The unlock tables as the request handlers update them, proved against the steps of `Unlocking`. */
module UnlockGrants {
  import opened Option
  import opened Completion
  import opened TopicForest
  import opened LearningUnits
  import opened Unlocking

  lemma AppendFresh(s: seq<Id>, x: Id)
    requires NoRepeats(s) && x !in s
    ensures NoRepeats(s + [x])
  {
    ConcatNoRepeats(s, [x]);
  }

  lemma NothingAdded(before: Grants, t: Trainee, s: seq<Id>, g: Grant)
    ensures AddGrants(before, KeysOf({t}, Elements(s[..0])), g) == before
  {
  }

  lemma KeysOfUnion(ts: set<Trainee>, t: Trainee, nodes: set<Id>)
    ensures KeysOf(ts + {t}, nodes) == KeysOf(ts, nodes) + KeysOf({t}, nodes)
  {
  }

  lemma AddGrantsUnion(before: Grants, a: set<Key>, b: set<Key>, g: Grant)
    ensures AddGrants(AddGrants(before, a, g), b, g) == AddGrants(before, a + b, g)
  {
  }

  lemma ElementsStep(s: seq<Id>, i: nat)
    requires i < |s|
    ensures Elements(s[..i + 1]) == Elements(s[..i]) + {s[i]}
    ensures NoRepeats(s) ==> s[i] !in Elements(s[..i])
  {
  }

  lemma OneMoreAdded(before: Grants, t: Trainee, s: seq<Id>, i: nat, g: Grant)
    requires NoRepeats(s) && i < |s|
    ensures var grants := AddGrants(before, KeysOf({t}, Elements(s[..i])), g);
            && AddGrants(before, KeysOf({t}, Elements(s[..i + 1])), g) == AddGrants(grants, {Key(t, s[i])}, g)
            && (Key(t, s[i]) in grants <==> Key(t, s[i]) in before)
  {
    ElementsStep(s, i);
    var kids := Elements(s[..i]);
    assert KeysOf({t}, kids + {s[i]}) == KeysOf({t}, kids) + {Key(t, s[i])};
    AddGrantsUnion(before, KeysOf({t}, kids), {Key(t, s[i])}, g);
  }

  lemma AllAdded(w: Space, t: Trainee, s: seq<Id>, p: Id)
    requires forall x :: x in s <==> x in EligibleChildren(w, p)
    ensures GrantChildren(w, {t}, p).grants
         == AddGrants(w.grants, KeysOf({t}, Elements(s[..|s|])), Grant(p, ParentCompleted))
  {
    assert s[..|s|] == s;
    assert Elements(s) == EligibleChildren(w, p);
  }

  /** Once a key is there, adding it again changes nothing. */
  lemma AddGrantTwice(before: Grants, k: Key)
    ensures k in before ==> forall g :: AddGrants(before, {k}, g) == before
  {
  }

  function CompletedAmong(w: Space, keys: set<Key>, p: Id): set<Trainee> {
    set k | k in keys && k.node == p && CompleteFor(w, k.trainee, p) :: k.trainee
  }

  lemma NobodyGranted(w: Space, p: Id)
    ensures forall keys: set<Key> :: CompletedAmong(w, keys - keys, p) == {}
    ensures GrantChildren(w, {}, p) == w
  {
    assert KeysOf({}, EligibleChildren(w, p)) == {};
  }

  lemma GrantChildrenUnion(w: Space, ts: set<Trainee>, t: Trainee, p: Id)
    ensures GrantChildren(GrantChildren(w, ts, p), {t}, p) == GrantChildren(w, ts + {t}, p)
  {
    hide KeysOf, AddGrants, Accessible, Kids;
    var kids := EligibleChildren(w, p);
    assert EligibleChildren(GrantChildren(w, ts, p), p) == kids;
    KeysOfUnion(ts, t, kids);
    AddGrantsUnion(w.grants, KeysOf(ts, kids), KeysOf({t}, kids), Grant(p, ParentCompleted));
  }

  lemma OneMoreTrainee(w: Space, all: set<Key>, rest: set<Key>, k: Key, p: Id)
    requires rest <= all && k in rest && forall x | x in all :: x.node == p
    ensures var ts, more := CompletedAmong(w, all - rest, p), CompletedAmong(w, all - (rest - {k}), p);
            && more == (if CompleteFor(w, k.trainee, p) then ts + {k.trainee} else ts)
            && k.trainee !in ts
  {
    hide CompleteFor;
    var ts := CompletedAmong(w, all - rest, p);
    assert all - (rest - {k}) == (all - rest) + {k};
    assert forall x | x in all && x.trainee == k.trainee :: x == k;
  }

  lemma RegrantMeans(w: Space, p: Id)
    ensures Next(w, Regrant(p)) == GrantChildren(w, CompletedTrainees(w, p), p)
  {
  }

  lemma AllAmong(w: Space, all: set<Key>, p: Id)
    requires all == set k | k in w.rows && k.node == p
    ensures CompletedAmong(w, all, p) == CompletedTrainees(w, p)
  {
    hide CompleteFor;
  }

  /** Granting changes the grants alone, so whoever is complete stays so. */
  lemma OnlyGrantsChange(w: Space, ts: set<Trainee>, p: Id, k: Key)
    requires k in w.rows && k.node == p
    ensures GrantChildren(w, ts, p).rows == w.rows && GrantChildren(w, ts, p).quizNodes == w.quizNodes
    ensures CompleteFor(w, k.trainee, p) <==> IsLearningUnitComplete(w.rows[k], p in w.quizNodes)
  {
    assert k == Key(k.trainee, p);
    hide KeysOf, AddGrants, EligibleChildren;
  }

  /** The unlock tables of one space, as the request handlers update them. */
  class UnlockStore {
    var forest: Forest
    var published: set<Id>
    var rows: map<Key, ProgressRow>
    var quizNodes: set<Id>
    var grants: Grants

    function State(): Space
      reads this
    {
      Space(forest, published, rows, quizNodes, grants)
    }

    constructor (w: Space)
      ensures State() == w
    {
      forest, published, rows, quizNodes, grants := w.forest, w.published, w.rows, w.quizNodes, w.grants;
    }

    method GrantUnlock(t: Trainee, n: Id, gate: Id, source: UnlockSource) returns (written: bool)
      modifies this`grants
      ensures written <==> Key(t, n) !in old(grants)
      ensures grants == AddGrants(old(grants), {Key(t, n)}, Grant(gate, source))
      ensures Key(t, n) in grants && grants - {Key(t, n)} == old(grants) - {Key(t, n)}
      ensures grants[Key(t, n)] == if written then Grant(gate, source) else old(grants)[Key(t, n)]
    {
      written := Key(t, n) !in grants;
      if written {
        grants := grants[Key(t, n) := Grant(gate, source)];
      }
    }

    method EligibleChildrenForUnlock(p: Id) returns (eligible: seq<Id>)
      ensures forall x :: x in eligible <==> x in EligibleChildren(State(), p)
      ensures NoRepeats(eligible)
    {
      eligible := [];
      var kids := Kids(forest, p);
      KidsNoRepeats(forest, p);
      for i := 0 to |kids|
        invariant forall x :: x in eligible <==> x in kids[..i] && AccessibleIn(State(), x)
        invariant NoRepeats(eligible)
      {
        var yes := HasAccessibleLearningContent(forest, kids[i], published);
        if yes {
          AppendFresh(eligible, kids[i]);
          eligible := eligible + [kids[i]];
        }
      }
    }

    /** `batch_grant_children_on_parent_completed` */
    method BatchGrantChildren(t: Trainee, p: Id) returns (newly: seq<Id>)
      modifies this`grants
      ensures State() == GrantChildren(old(State()), {t}, p)
      ensures NoRepeats(newly)
      ensures forall x :: x in newly <==> x in EligibleChildren(old(State()), p) && Key(t, x) !in old(grants)
    {
      newly := [];
      assert NoRepeats(newly);
      hide NoRepeats, AddGrants, KeysOf, Elements, EligibleChildren;
      var eligible := EligibleChildrenForUnlock(p);
      ghost var before, g := grants, Grant(p, ParentCompleted);
      NothingAdded(before, t, eligible, g);
      for i := 0 to |eligible|
        invariant grants == AddGrants(before, KeysOf({t}, Elements(eligible[..i])), g)
        invariant forall x :: x in newly <==> x in eligible[..i] && Key(t, x) !in before
        invariant NoRepeats(newly)
      {
        OneMoreAdded(before, t, eligible, i, g);
        var written := GrantUnlock(t, eligible[i], p, ParentCompleted);
        if written {
          AppendFresh(newly, eligible[i]);
          newly := newly + [eligible[i]];
        }
      }
      AllAdded(old(State()), t, eligible, p);
    }

    /** `grant_unlocks_after_node_completed` */
    method GrantUnlocksAfterNodeCompleted(t: Trainee, p: Id) returns (newly: seq<Id>)
      modifies this`grants
      ensures State() == Next(old(State()), CompleteNode(t, p))
      ensures forall x :: x in newly <==> x in EligibleChildren(old(State()), p) && Key(t, x) !in old(grants)
    {
      newly := BatchGrantChildren(t, p);
    }

    /** `build_unlock_progress_context` */
    method BuildUnlockProgressContext(t: Trainee, ids: seq<Id>) returns (ctx: ProgressContext)
      ensures ctx == LiveContext(State(), t, Elements(ids))
    {
      hide IsForest, SnapshotFromRow, NoRepeats;
      var snapshots: Progress, unlocked: set<Id> := map[], {};
      var quizzes := quizNodes * (set x | x in ids);
      for i := 0 to |ids|
        invariant unlocked == LiveContext(State(), t, Elements(ids[..i])).unlocked
        invariant snapshots == LiveContext(State(), t, Elements(ids[..i])).snapshots
      {
        ElementsStep(ids, i);
        if Key(t, ids[i]) in rows {
          snapshots := snapshots[ids[i] := SnapshotFromRow(rows[Key(t, ids[i])], ids[i] in quizzes)];
        }
        if Key(t, ids[i]) in grants {
          unlocked := unlocked + {ids[i]};
        }
      }
      assert ids[..|ids|] == ids;
      ctx := ProgressContext(snapshots, quizzes, unlocked);
    }

    /**
     `resolve_node_access_with_grant`: always the status of the pure resolution on the context it
     was given; it writes only when it lets somebody through a gate that the context shows complete.
     */
    method ResolveNodeAccessWithGrant(t: Trainee, n: Id, ctx: ProgressContext) returns (a: Access, newlyGranted: bool)
      modifies this`grants
      ensures a == Resolve(forest, published, ctx, n)
      ensures var gate := Gate(forest, published, n);
              var grant := a == Available && gate.Some? && n !in ctx.unlocked;
              && grants == (if grant then AddGrants(old(grants), {Key(t, n)}, Grant(gate.value, Backfill))
                            else old(grants))
              && (newlyGranted <==> grant && Key(t, n) !in old(grants))
    {
      newlyGranted := false;
      a := ResolveNodeAccess(forest, published, ctx, n);
      if a != Available {
        return;
      }
      var parent := ParentOf(forest, n);
      if parent.None? || parent.value !in published {
        return;
      }
      if n in ctx.unlocked {
        return;
      }
      if !IsProgressComplete(ctx, parent.value) {
        return;
      }
      newlyGranted := GrantUnlock(t, n, parent.value, Backfill);
    }

    /** `assert_trainee_node_unlocked`: the answer follows the tables, and so does the grant. */
    method AssertTraineeNodeUnlocked(t: Trainee, n: Id) returns (a: Access)
      modifies this`grants
      ensures a == AccessFor(old(State()), t, n)
      ensures State() == Next(old(State()), Open(t, n))
    {
      hide Accessible, IsForest, AccessFor, Resolve;
      ghost var before := State();
      var ids := [n];
      var parent := ParentOf(forest, n);
      if parent.Some? {
        ids := ids + [parent.value];
      }
      var ctx := BuildUnlockProgressContext(t, ids);
      assert n in ctx.unlocked <==> Key(t, n) in before.grants;
      LiveContextDecides(before, t, Elements(ids), n);
      var newly;
      a, newly := ResolveNodeAccessWithGrant(t, n, ctx);
      AddGrantTwice(before.grants, Key(t, n));
    }

    /**
     `grant_unlocks_for_completed_trainees_on_node`: the rows come in any order; the grants are
     those of every trainee who completes the node now, and the count is of those trainees.
     */
    method GrantUnlocksForCompletedTrainees(p: Id) returns (processed: nat)
      modifies this`grants
      ensures State() == Next(old(State()), Regrant(p))
      ensures processed == |CompletedTrainees(old(State()), p)|
    {
      RegrantMeans(State(), p);
      hide CompleteFor, KeysOf, AddGrants, EligibleChildren, GrantChildren, Next, IsLearningUnitComplete, IsForest;
      ghost var w := State();
      ghost var all := set k | k in rows && k.node == p;
      var rest := set k | k in rows && k.node == p;
      processed := 0;
      NobodyGranted(w, p);
      AllAmong(w, all, p);
      assert all - all == {};
      hide CompletedAmong, CompletedTrainees;
      while rest != {}
        invariant rest <= all
        invariant State() == GrantChildren(w, CompletedAmong(w, all - rest, p), p)
        invariant processed == |CompletedAmong(w, all - rest, p)|
        decreases |rest|
      {
        var k :| k in rest;
        OneMoreTrainee(w, all, rest, k, p);
        OnlyGrantsChange(w, CompletedAmong(w, all - rest, p), p, k);
        GrantChildrenUnion(w, CompletedAmong(w, all - rest, p), k.trainee, p);
        if IsLearningUnitComplete(rows[k], p in quizNodes) {
          var newly := BatchGrantChildren(k.trainee, p);
          processed := processed + 1;
        }
        rest := rest - {k};
      }
      assert all - {} == all;
    }

    /** `grant_unlocks_after_child_content_published` */
    method GrantUnlocksAfterChildContentPublished(n: Id) returns (processed: nat)
      modifies this`grants
      ensures State() == Next(old(State()), ChildPublished(n))
    {
      hide Accessible, IsForest, GrantChildren, CompletedTrainees;
      processed := 0;
      var accessible := HasAccessibleLearningContent(forest, n, published);
      if !accessible {
        return;
      }
      var parent := ParentOf(forest, n);
      if parent.None? || parent.value !in published {
        return;
      }
      processed := GrantUnlocksForCompletedTrainees(parent.value);
    }

    /** `clear_unlocks_for_reparented_node` */
    method ClearUnlocksForReparentedNode(n: Id) returns (deleted: nat)
      modifies this`grants
      ensures State() == Next(old(State()), ClearReparented(n))
      ensures forall k :: k in grants <==> k in old(grants) && k.node != n
      ensures forall k | k in grants :: grants[k] == old(grants)[k]
      ensures deleted == |set k | k in old(grants) && k.node == n|
    {
      deleted := |set k | k in grants && k.node == n|;
      grants := map k | k in grants && k.node != n :: grants[k];
    }
  }
}
