/** The comment tree and its stored counters. Each comment stores replyCount
    (its live direct replies) and totalReplies (its live replies at any
    depth). The service keeps these counters by arithmetic: a new reply adds
    one to its parent's two counters and to the totalReplies of every strict
    ancestor of the parent (a recursive SQL query); a soft delete subtracts
    the same. This module states what the counters should equal and proves
    that those updates keep them equal. */
module CommentTree {
  import opened Common
  import opened Records

  type Table = map<string, Comment>

  /** The parent of k names a comment of the table and has a smaller rank:
      following parents always ends at a top-level comment. */
  ghost predicate ParentLinked(m: Table, rank: map<string, nat>, k: string)
    requires k in m && k in rank
  {
    m[k].parentId.Some? ==>
      m[k].parentId.value in m && m[k].parentId.value in rank && rank[m[k].parentId.value] < rank[k]
  }

  /** The table is a forest: every parent exists and the parent chain has no
      cycle, witnessed by a rank that strictly decreases toward the root. */
  ghost predicate Forest(m: Table, rank: map<string, nat>) {
    m.Keys <= rank.Keys && forall k {:trigger ParentLinked(m, rank, k)} :: k in m ==> ParentLinked(m, rank, k)
  }

  /** The strict ancestors of a comment: its parent, its parent's parent, and
      so on up to a top-level comment. */
  function StrictAncestors(m: Table, ghost rank: map<string, nat>, id: string): (r: set<string>)
    requires Forest(m, rank) && id in m
    ensures r <= m.Keys
    decreases rank[id]
  {
    match m[id].parentId
    case None => {}
    case Some(p) =>
      assert ParentLinked(m, rank, id);
      {p} + StrictAncestors(m, rank, p)
  }

  /** The live direct replies of p. */
  function LiveChildren(m: Table, p: string): set<string> {
    set k | k in m && m[k].parentId == Some(p) && !m[k].isDeleted
  }

  /** The live replies of p at any depth. */
  ghost function LiveDescendants(m: Table, rank: map<string, nat>, p: string): set<string>
    requires Forest(m, rank)
  {
    set k | k in m && !m[k].isDeleted && p in StrictAncestors(m, rank, k)
  }

  ghost predicate CountersMatch(m: Table, rank: map<string, nat>, p: string)
    requires Forest(m, rank) && p in m
  {
    m[p].replyCount == |LiveChildren(m, p)| && m[p].totalReplies == |LiveDescendants(m, rank, p)|
  }

  /** Every comment's stored counters equal its live replies, direct and at
      any depth. */
  ghost predicate Consistent(m: Table, rank: map<string, nat>)
    requires Forest(m, rank)
  {
    forall p {:trigger CountersMatch(m, rank, p)} :: p in m ==> CountersMatch(m, rank, p)
  }

  /** m2 has the same comments as m1 with the same parents and deletion
      flags; other fields may differ. */
  ghost predicate SameShape(m1: Table, m2: Table) {
    m1.Keys == m2.Keys
    && forall k :: k in m1 ==> m2[k].parentId == m1[k].parentId && m2[k].isDeleted == m1[k].isDeleted
  }

  /** The counter updates for one reply appearing (delta 1) or disappearing
      (delta -1) under parentId: the parent's replyCount and totalReplies,
      and the totalReplies of every strict ancestor of the parent, move by
      delta; nothing else changes. */
  function Bump(m: Table, ghost rank: map<string, nat>, parentId: string, delta: int): (r: Table)
    requires Forest(m, rank) && parentId in m
    ensures SameShape(m, r)
  {
    var anc := StrictAncestors(m, rank, parentId);
    map k | k in m ::
      if k == parentId then m[k].(replyCount := m[k].replyCount + delta, totalReplies := m[k].totalReplies + delta)
      else if k in anc then m[k].(totalReplies := m[k].totalReplies + delta)
      else m[k]
  }

  /** Soft deletion of one comment: the comment stays, flagged as deleted. */
  function MarkDeleted(m: Table, id: string, now: int): (r: Table)
    requires id in m
  {
    m[id := m[id].(isDeleted := true, updatedAt := now)]
  }

  /** Account anonymisation: every comment of the user is flagged deleted and
      its text replaced; no counter is touched. */
  function AnonymiseComments(m: Table, userId: string, now: int): (r: Table)
  {
    map k | k in m ::
      if m[k].userId == userId then m[k].(isDeleted := true, text := "[deleted by user]", updatedAt := now)
      else m[k]
  }

  lemma SameShapeKeepsForest(m1: Table, m2: Table, rank: map<string, nat>)
    requires Forest(m1, rank) && SameShape(m1, m2)
    ensures Forest(m2, rank)
  {
    forall k | k in m2 ensures ParentLinked(m2, rank, k) {
      assert ParentLinked(m1, rank, k);
    }
  }

  /** Ancestors only depend on parent links: two forests that agree on the
      parents of the comments of m1 give those comments the same ancestors. */
  lemma {:induction false} AncestorsStable(m1: Table, r1: map<string, nat>, m2: Table, r2: map<string, nat>, k: string)
    requires Forest(m1, r1) && Forest(m2, r2) && k in m1
    requires m1.Keys <= m2.Keys && forall j :: j in m1 ==> m2[j].parentId == m1[j].parentId
    ensures StrictAncestors(m2, r2, k) == StrictAncestors(m1, r1, k)
    decreases r1[k]
  {
    match m1[k].parentId
    case None =>
    case Some(p) =>
      assert ParentLinked(m1, r1, k);
      AncestorsStable(m1, r1, m2, r2, p);
  }

  /** Counters are read through parents and deletion flags only. */
  lemma SameShapeSameLive(m1: Table, m2: Table, rank: map<string, nat>, p: string)
    requires Forest(m1, rank) && SameShape(m1, m2)
    ensures Forest(m2, rank)
    ensures LiveChildren(m2, p) == LiveChildren(m1, p)
    ensures LiveDescendants(m2, rank, p) == LiveDescendants(m1, rank, p)
  {
    SameShapeKeepsForest(m1, m2, rank);
    forall k | k in m1 ensures StrictAncestors(m2, rank, k) == StrictAncestors(m1, rank, k) {
      AncestorsStable(m1, rank, m2, rank, k);
    }
  }

  /** A comment's direct live replies are among its live replies at any
      depth, so replyCount never exceeds totalReplies. */
  lemma DirectRepliesAtMostTotal(m: Table, rank: map<string, nat>, p: string)
    requires Forest(m, rank) && Consistent(m, rank) && p in m
    ensures 0 <= m[p].replyCount <= m[p].totalReplies
  {
    assert CountersMatch(m, rank, p);
    forall k | k in LiveChildren(m, p) ensures k in LiveDescendants(m, rank, p) {
      assert ParentLinked(m, rank, k);
      assert p in StrictAncestors(m, rank, k);
    }
    SubsetCard(LiveChildren(m, p), LiveDescendants(m, rank, p));
  }

  /** The rank a new comment receives: one more than its parent's. */
  ghost function InsertRank(m: Table, rank: map<string, nat>, c: Comment): map<string, nat>
    requires Forest(m, rank)
    requires c.parentId.Some? ==> c.parentId.value in m
  {
    rank[c.id := if c.parentId.Some? then rank[c.parentId.value] + 1 else 0]
  }

  /** Inserting a fresh comment whose parent (if any) exists keeps the table
      a forest, and keeps the ancestors of every existing comment. */
  lemma InsertKeepsForest(m: Table, rank: map<string, nat>, c: Comment)
    requires Forest(m, rank) && c.id !in m
    requires c.parentId.Some? ==> c.parentId.value in m
    ensures Forest(m[c.id := c], InsertRank(m, rank, c))
    ensures forall k :: k in m ==> StrictAncestors(m[c.id := c], InsertRank(m, rank, c), k) == StrictAncestors(m, rank, k)
  {
    var m1 := m[c.id := c];
    var r1 := InsertRank(m, rank, c);
    forall k | k in m1 ensures ParentLinked(m1, r1, k) {
      if k != c.id {
        assert ParentLinked(m, rank, k);
      }
    }
    forall k | k in m ensures StrictAncestors(m1, r1, k) == StrictAncestors(m, rank, k) {
      AncestorsStable(m, rank, m1, r1, k);
    }
  }

  /** No existing comment has the fresh comment as its parent or ancestor. */
  lemma FreshHasNoReplies(m: Table, rank: map<string, nat>, c: Comment)
    requires Forest(m, rank) && c.id !in m
    requires c.parentId.Some? ==> c.parentId.value in m
    ensures Forest(m[c.id := c], InsertRank(m, rank, c))
    ensures LiveChildren(m[c.id := c], c.id) == {}
    ensures LiveDescendants(m[c.id := c], InsertRank(m, rank, c), c.id) == {}
  {
    var m1 := m[c.id := c];
    var r1 := InsertRank(m, rank, c);
    InsertKeepsForest(m, rank, c);
    forall k | k in m1 ensures m1[k].parentId != Some(c.id) && c.id !in StrictAncestors(m1, r1, k) {
      if k != c.id {
        assert ParentLinked(m, rank, k);
      } else {
        assert ParentLinked(m1, r1, k);
      }
    }
  }

  /** What inserting a live reply c under p adds to the live sets of an
      existing comment q: c itself, as a direct reply of p and as a reply at
      any depth of p and of p's strict ancestors. */
  lemma InsertLiveSets(m: Table, rank: map<string, nat>, c: Comment, p: string, q: string)
    requires Forest(m, rank) && p in m && c.id !in m && c.parentId == Some(p) && !c.isDeleted && q in m
    ensures Forest(m[c.id := c], InsertRank(m, rank, c))
    ensures LiveChildren(m[c.id := c], q) == LiveChildren(m, q) + (if q == p then {c.id} else {})
    ensures LiveDescendants(m[c.id := c], InsertRank(m, rank, c), q)
            == LiveDescendants(m, rank, q) + (if q == p || q in StrictAncestors(m, rank, p) then {c.id} else {})
  {
    var m1 := m[c.id := c];
    var r1 := InsertRank(m, rank, c);
    InsertKeepsForest(m, rank, c);
    assert ParentLinked(m1, r1, c.id);
    assert StrictAncestors(m1, r1, c.id) == {p} + StrictAncestors(m1, r1, p);
  }

  /** The counters of one comment after a reply is inserted and bumped. */
  lemma InsertReplyCountersAt(m: Table, rank: map<string, nat>, c: Comment, p: string, q: string)
    requires Forest(m, rank) && Consistent(m, rank)
    requires p in m && c.id !in m && c.parentId == Some(p)
    requires !c.isDeleted && c.replyCount == 0 && c.totalReplies == 0
    requires q in m || q == c.id
    ensures Forest(m[c.id := c], InsertRank(m, rank, c))
    ensures Forest(Bump(m[c.id := c], InsertRank(m, rank, c), p, 1), InsertRank(m, rank, c))
    ensures CountersMatch(Bump(m[c.id := c], InsertRank(m, rank, c), p, 1), InsertRank(m, rank, c), q)
  {
    var m1 := m[c.id := c];
    var r1 := InsertRank(m, rank, c);
    InsertKeepsForest(m, rank, c);
    var m' := Bump(m1, r1, p, 1);
    SameShapeSameLive(m1, m', r1, q);
    if q == c.id {
      FreshHasNoReplies(m, rank, c);
      assert c.id !in StrictAncestors(m1, r1, p);
    } else {
      assert CountersMatch(m, rank, q);
      InsertLiveSets(m, rank, c, p, q);
    }
  }

  /** Adding a live reply with zero counters under an existing parent p, and
      then bumping p and its strict ancestors by one, keeps every counter
      equal to what it counts. */
  lemma InsertReplyKeepsCounters(m: Table, rank: map<string, nat>, c: Comment, p: string)
    requires Forest(m, rank) && Consistent(m, rank)
    requires p in m && c.id !in m && c.parentId == Some(p)
    requires !c.isDeleted && c.replyCount == 0 && c.totalReplies == 0
    ensures Forest(m[c.id := c], InsertRank(m, rank, c))
    ensures var r1 := InsertRank(m, rank, c);
            var m' := Bump(m[c.id := c], r1, p, 1);
            Forest(m', r1) && Consistent(m', r1)
  {
    var m1 := m[c.id := c];
    var r1 := InsertRank(m, rank, c);
    InsertKeepsForest(m, rank, c);
    var m' := Bump(m1, r1, p, 1);
    SameShapeKeepsForest(m1, m', r1);
    forall q | q in m' ensures CountersMatch(m', r1, q) {
      InsertReplyCountersAt(m, rank, c, p, q);
    }
  }

  /** Adding a live top-level comment with zero counters changes no live
      set of an existing comment, so every counter still matches. */
  lemma InsertTopLevelKeepsCounters(m: Table, rank: map<string, nat>, c: Comment)
    requires Forest(m, rank) && Consistent(m, rank)
    requires c.id !in m && c.parentId.None? && c.replyCount == 0 && c.totalReplies == 0
    ensures Forest(m[c.id := c], InsertRank(m, rank, c))
    ensures Consistent(m[c.id := c], InsertRank(m, rank, c))
  {
    var m1 := m[c.id := c];
    var r1 := InsertRank(m, rank, c);
    InsertKeepsForest(m, rank, c);
    FreshHasNoReplies(m, rank, c);
    assert StrictAncestors(m1, r1, c.id) == {};
    forall q | q in m1 ensures CountersMatch(m1, r1, q) {
      if q != c.id {
        assert CountersMatch(m, rank, q);
        assert LiveChildren(m1, q) == LiveChildren(m, q);
        assert LiveDescendants(m1, r1, q) == LiveDescendants(m, rank, q);
      }
    }
  }

  /** Changing fields other than the parent, the deletion flag and the two
      counters (a text, a timestamp) keeps every counter matching. */
  lemma SameCountersKeepConsistent(m1: Table, m2: Table, rank: map<string, nat>)
    requires Forest(m1, rank) && Consistent(m1, rank) && SameShape(m1, m2)
    requires forall k :: k in m1 ==> m2[k].replyCount == m1[k].replyCount && m2[k].totalReplies == m1[k].totalReplies
    ensures Forest(m2, rank) && Consistent(m2, rank)
  {
    SameShapeKeepsForest(m1, m2, rank);
    forall q | q in m2 ensures CountersMatch(m2, rank, q) {
      assert CountersMatch(m1, rank, q);
      SameShapeSameLive(m1, m2, rank, q);
    }
  }

  /** Soft deletion keeps the forest and every comment's ancestors. */
  lemma MarkDeletedKeepsForest(m: Table, rank: map<string, nat>, d: string, now: int)
    requires Forest(m, rank) && d in m
    ensures Forest(MarkDeleted(m, d, now), rank)
    ensures forall k :: k in m ==> StrictAncestors(MarkDeleted(m, d, now), rank, k) == StrictAncestors(m, rank, k)
  {
    var m1 := MarkDeleted(m, d, now);
    forall k | k in m1 ensures ParentLinked(m1, rank, k) {
      assert ParentLinked(m, rank, k);
    }
    forall k | k in m ensures StrictAncestors(m1, rank, k) == StrictAncestors(m, rank, k) {
      AncestorsStable(m, rank, m1, rank, k);
    }
  }

  /** Soft-deleting a live comment d removes exactly d from every live set,
      and d belongs to the live sets of its parent and its ancestors only. */
  lemma MarkDeletedLiveSets(m: Table, rank: map<string, nat>, d: string, now: int, q: string)
    requires Forest(m, rank) && d in m && !m[d].isDeleted
    ensures Forest(MarkDeleted(m, d, now), rank)
    ensures LiveChildren(MarkDeleted(m, d, now), q) == LiveChildren(m, q) - {d}
    ensures d in LiveChildren(m, q) <==> m[d].parentId == Some(q)
    ensures LiveDescendants(MarkDeleted(m, d, now), rank, q) == LiveDescendants(m, rank, q) - {d}
    ensures d in LiveDescendants(m, rank, q) <==> q in StrictAncestors(m, rank, d)
  {
    MarkDeletedKeepsForest(m, rank, d, now);
  }

  /** The counters of one comment after a reply is soft-deleted and bumped. */
  lemma DeleteReplyCountersAt(m: Table, rank: map<string, nat>, d: string, p: string, now: int, q: string)
    requires Forest(m, rank) && Consistent(m, rank)
    requires d in m && !m[d].isDeleted && m[d].parentId == Some(p) && q in m
    ensures p in m && Forest(MarkDeleted(m, d, now), rank)
    ensures Forest(Bump(MarkDeleted(m, d, now), rank, p, -1), rank)
    ensures CountersMatch(Bump(MarkDeleted(m, d, now), rank, p, -1), rank, q)
  {
    assert ParentLinked(m, rank, d);
    var m1 := MarkDeleted(m, d, now);
    MarkDeletedKeepsForest(m, rank, d, now);
    var m' := Bump(m1, rank, p, -1);
    SameShapeSameLive(m1, m', rank, q);
    assert CountersMatch(m, rank, q);
    MarkDeletedLiveSets(m, rank, d, now, q);
    assert StrictAncestors(m, rank, d) == {p} + StrictAncestors(m, rank, p);
  }

  /** Soft-deleting a live reply of p and then bumping p and its strict
      ancestors by minus one keeps every counter equal to what it counts. */
  lemma DeleteReplyKeepsCounters(m: Table, rank: map<string, nat>, d: string, p: string, now: int)
    requires Forest(m, rank) && Consistent(m, rank)
    requires d in m && !m[d].isDeleted && m[d].parentId == Some(p)
    ensures p in m && Forest(MarkDeleted(m, d, now), rank)
    ensures var m' := Bump(MarkDeleted(m, d, now), rank, p, -1);
            Forest(m', rank) && Consistent(m', rank)
  {
    assert ParentLinked(m, rank, d);
    var m1 := MarkDeleted(m, d, now);
    MarkDeletedKeepsForest(m, rank, d, now);
    var m' := Bump(m1, rank, p, -1);
    SameShapeKeepsForest(m1, m', rank);
    forall q | q in m' ensures CountersMatch(m', rank, q) {
      DeleteReplyCountersAt(m, rank, d, p, now, q);
    }
  }

  /** Soft-deleting a live top-level comment changes no counter, and none
      needs to change. */
  lemma DeleteTopLevelKeepsCounters(m: Table, rank: map<string, nat>, d: string, now: int)
    requires Forest(m, rank) && Consistent(m, rank)
    requires d in m && !m[d].isDeleted && m[d].parentId.None?
    ensures Forest(MarkDeleted(m, d, now), rank) && Consistent(MarkDeleted(m, d, now), rank)
  {
    var m' := MarkDeleted(m, d, now);
    MarkDeletedKeepsForest(m, rank, d, now);
    forall q | q in m' ensures CountersMatch(m', rank, q) {
      assert CountersMatch(m, rank, q);
      MarkDeletedLiveSets(m, rank, d, now, q);
    }
  }

  /** Anonymising an account keeps the forest: no parent changes. */
  lemma AnonymiseKeepsForest(m: Table, rank: map<string, nat>, userId: string, now: int)
    requires Forest(m, rank)
    ensures Forest(AnonymiseComments(m, userId, now), rank)
  {
    var m' := AnonymiseComments(m, userId, now);
    forall k | k in m' ensures ParentLinked(m', rank, k) {
      assert ParentLinked(m, rank, k);
    }
  }

  /** Anonymising an account can leave counters that no longer match: a
      thread with one live reply keeps replyCount 1 after the reply's author
      is anonymised, though the reply is now deleted. */
  lemma AnonymiseBreaksCounters()
    ensures exists m: Table, rank: map<string, nat> ::
              Forest(m, rank) && Consistent(m, rank)
              && Forest(AnonymiseComments(m, "bob", 0), rank)
              && !Consistent(AnonymiseComments(m, "bob", 0), rank)
  {
    var top := Comment("t", "alice", None, "hi", false, 1, 1, None, 0, 0);
    var reply := Comment("r", "bob", Some("t"), "yo", false, 0, 0, None, 0, 0);
    var m := map["t" := top, "r" := reply];
    var rank := map["t" := 0, "r" := 1];
    assert ParentLinked(m, rank, "t") && ParentLinked(m, rank, "r");
    assert Forest(m, rank);
    assert StrictAncestors(m, rank, "t") == {};
    assert StrictAncestors(m, rank, "r") == {"t"};
    assert LiveChildren(m, "t") == {"r"};
    assert LiveChildren(m, "r") == {};
    assert LiveDescendants(m, rank, "t") == {"r"};
    assert LiveDescendants(m, rank, "r") == {};
    assert CountersMatch(m, rank, "t") && CountersMatch(m, rank, "r");
    assert Consistent(m, rank);
    var m' := AnonymiseComments(m, "bob", 0);
    assert m'["t"] == top;
    assert m'["r"].parentId == Some("t") && m'["r"].isDeleted;
    assert ParentLinked(m', rank, "t") && ParentLinked(m', rank, "r");
    assert Forest(m', rank);
    assert LiveChildren(m', "t") == {};
    assert !CountersMatch(m', rank, "t");
    assert !Consistent(m', rank);
  }
}
