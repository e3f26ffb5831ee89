/**
 * Phase order. The store keeps no links between phases: each phase carries a
 * real-valued `position`, and a phase "follows" the phase of the same project
 * with the greatest smaller position. This module states the queries that
 * derive the order, the rule that gives a saved phase its position (shared by
 * `ModelDB._save_phase`, `move_phase_and_tasks_to_project` and
 * `TaskDB.save_phase`), and what that rule guarantees.
 */
module PhaseOrder {
  import opened Common
  import opened Schema

  type PhaseTable = map<Id, Phase>

  predicate InProject(t: PhaseTable, pid: Id, id: Id)
  {
    id in t && t[id].projectId == pid
  }

  ghost predicate IsEmptyProject(t: PhaseTable, pid: Id)
  {
    forall q :: !InProject(t, pid, q)
  }

  /** `id` heads "phases of pid ordered by position, descending". */
  ghost predicate IsLast(t: PhaseTable, pid: Id, id: Id)
  {
    InProject(t, pid, id) &&
    forall q :: InProject(t, pid, q) ==> t[q].position <= t[id].position
  }

  /**
   * `id` heads "phases of pid, other than `skip`, positioned above `pos`,
   * ordered by position".
   */
  ghost predicate IsFirstAbove(t: PhaseTable, pid: Id, skip: Option<Id>, pos: real, id: Id)
  {
    InProject(t, pid, id) && Some(id) != skip && pos < t[id].position &&
    forall q :: InProject(t, pid, q) && Some(q) != skip && pos < t[q].position ==> t[id].position <= t[q].position
  }

  ghost predicate NoneAbove(t: PhaseTable, pid: Id, skip: Option<Id>, pos: real)
  {
    forall q :: InProject(t, pid, q) && Some(q) != skip ==> t[q].position <= pos
  }

  /** `id` heads "phases of pid positioned below `pos`, ordered by position, descending". */
  ghost predicate IsLastBelow(t: PhaseTable, pid: Id, pos: real, id: Id)
  {
    InProject(t, pid, id) && t[id].position < pos &&
    forall q :: InProject(t, pid, q) && t[q].position < pos ==> t[q].position <= t[id].position
  }

  ghost predicate NoneBelow(t: PhaseTable, pid: Id, pos: real)
  {
    forall q :: InProject(t, pid, q) ==> pos <= t[q].position
  }

  /** No two phases of one project share a position. */
  ghost predicate DistinctPositions(t: PhaseTable)
  {
    forall a, b :: a in t && b in t && a != b && t[a].projectId == t[b].projectId ==>
      t[a].position != t[b].position
  }

  // ---------------------------------------------------------------------------
  // The queries, each a scan of the phase table.

  /** The last phase of a project, or None when it has none. */
  method FindLast(t: PhaseTable, pid: Id) returns (r: Option<Id>)
    ensures r.Some? ==> IsLast(t, pid, r.value)
    ensures r.None? ==> IsEmptyProject(t, pid)
  {
    r := None;
    var rest := t.Keys;
    while rest != {}
      invariant rest <= t.Keys
      invariant r.Some? ==> InProject(t, pid, r.value)
      invariant r.Some? ==> forall q :: InProject(t, pid, q) && q !in rest ==> t[q].position <= t[r.value].position
      invariant r.None? ==> forall q :: InProject(t, pid, q) ==> q in rest
      decreases rest
    {
      var k :| k in rest;
      rest := rest - {k};
      if t[k].projectId == pid && (r.None? || t[r.value].position < t[k].position) {
        r := Some(k);
      }
    }
  }

  /** The phase of `pid` other than `skip` with the least position above `pos`. */
  method FindFirstAbove(t: PhaseTable, pid: Id, skip: Option<Id>, pos: real) returns (r: Option<Id>)
    ensures r.Some? ==> IsFirstAbove(t, pid, skip, pos, r.value)
    ensures r.None? ==> NoneAbove(t, pid, skip, pos)
  {
    r := None;
    var rest := t.Keys;
    while rest != {}
      invariant rest <= t.Keys
      invariant r.Some? ==> InProject(t, pid, r.value) && Some(r.value) != skip && pos < t[r.value].position
      invariant r.Some? ==> forall q :: InProject(t, pid, q) && Some(q) != skip && pos < t[q].position && q !in rest ==>
                              t[r.value].position <= t[q].position
      invariant r.None? ==> forall q :: InProject(t, pid, q) && Some(q) != skip && pos < t[q].position ==> q in rest
      decreases rest
    {
      var k :| k in rest;
      rest := rest - {k};
      if t[k].projectId == pid && Some(k) != skip && pos < t[k].position &&
         (r.None? || t[k].position < t[r.value].position) {
        r := Some(k);
      }
    }
  }

  /** The phase of `pid` with the greatest position below `pos`: the derived `follows`. */
  method FindLastBelow(t: PhaseTable, pid: Id, pos: real) returns (r: Option<Id>)
    ensures r.Some? ==> IsLastBelow(t, pid, pos, r.value)
    ensures r.None? ==> NoneBelow(t, pid, pos)
  {
    r := None;
    var rest := t.Keys;
    while rest != {}
      invariant rest <= t.Keys
      invariant r.Some? ==> InProject(t, pid, r.value) && t[r.value].position < pos
      invariant r.Some? ==> forall q :: InProject(t, pid, q) && t[q].position < pos && q !in rest ==>
                              t[q].position <= t[r.value].position
      invariant r.None? ==> forall q :: InProject(t, pid, q) && t[q].position < pos ==> q in rest
      decreases rest
    {
      var k :| k in rest;
      rest := rest - {k};
      if t[k].projectId == pid && t[k].position < pos && (r.None? || t[r.value].position < t[k].position) {
        r := Some(k);
      }
    }
  }

  // ---------------------------------------------------------------------------
  // The position rule.

  datatype Placement = Placement(position: real, follows: Option<Id>)

  datatype PlaceError = FollowsItself | FollowsMissing | FollowsOtherProject

  /**
   * Appending: position 1.0 in an empty project, otherwise one past the last
   * phase, which becomes the `follows` unless it is the phase being saved.
   */
  ghost predicate Appended(t: PhaseTable, pid: Id, self: Option<Id>, p: Placement, last: Option<Id>)
  {
    if last.None? then IsEmptyProject(t, pid) && p == Placement(1.0, None)
    else
      IsLast(t, pid, last.value) && p.position == t[last.value].position + 1.0 &&
      p.follows == (if last == self then None else last)
  }

  /**
   * Inserting after `f`: three quarters of the way to the next phase (the
   * phase being saved does not count), or one past `f` when nothing follows it.
   */
  ghost predicate Inserted(t: PhaseTable, pid: Id, self: Option<Id>, f: Id, p: Placement, next: Option<Id>)
  {
    InProject(t, pid, f) && p.follows == Some(f) &&
    if next.None? then NoneAbove(t, pid, self, t[f].position) && p.position == t[f].position + 1.0
    else
      IsFirstAbove(t, pid, self, t[f].position, next.value) &&
      p.position == t[f].position + (t[next.value].position - t[f].position) * 0.75
  }

  /**
   * Where a phase of project `pid` goes when saved with the given `follows`.
   * `self` is the id of the phase being saved (None for a new phase). The
   * ghost `anchor` names the phase the placement was computed from.
   */
  method Place(t: PhaseTable, pid: Id, self: Option<Id>, follows: Option<Id>)
    returns (r: Result<Placement, PlaceError>, ghost anchor: Option<Id>)
    ensures follows.None? ==> r.Ok? && Appended(t, pid, self, r.value, anchor)
    ensures follows.Some? && follows == self ==> r == Err(FollowsItself)
    ensures follows.Some? && follows != self && follows.value !in t ==> r == Err(FollowsMissing)
    ensures follows.Some? && follows != self && follows.value in t && t[follows.value].projectId != pid ==>
              r == Err(FollowsOtherProject)
    ensures follows.Some? && follows != self && InProject(t, pid, follows.value) ==>
              r.Ok? && Inserted(t, pid, self, follows.value, r.value, anchor)
  {
    if follows.None? {
      var last := FindLast(t, pid);
      anchor := last;
      if last.None? {
        r := Ok(Placement(1.0, None));
      } else {
        r := Ok(Placement(t[last.value].position + 1.0, if last == self then None else last));
      }
    } else {
      anchor := None;
      var f := follows.value;
      if follows == self {
        r := Err(FollowsItself);
      } else if f !in t {
        r := Err(FollowsMissing);
      } else if t[f].projectId != pid {
        r := Err(FollowsOtherProject);
      } else {
        var next := FindFirstAbove(t, pid, self, t[f].position);
        anchor := next;
        if next.None? {
          r := Ok(Placement(t[f].position + 1.0, follows));
        } else {
          var offset := (t[next.value].position - t[f].position) * 0.75;
          r := Ok(Placement(t[f].position + offset, follows));
        }
      }
    }
  }

  // ---------------------------------------------------------------------------
  // What the rule guarantees once the placed row is written as `t[id := row]`.

  /**
   * An appended phase becomes the last phase of its project, strictly after
   * every other phase, and the `follows` the rule reports is exactly the
   * phase the order derives as its predecessor.
   */
  lemma AppendedGoesLast(t: PhaseTable, pid: Id, self: Option<Id>, p: Placement, last: Option<Id>, id: Id, row: Phase)
    requires Appended(t, pid, self, p, last)
    requires self == Some(id) || (self.None? && id !in t)
    requires row.projectId == pid && row.position == p.position
    ensures IsLast(t[id := row], pid, id)
    ensures forall q :: InProject(t, pid, q) ==> t[q].position < p.position
    ensures p.follows.Some? ==> IsLastBelow(t[id := row], pid, p.position, p.follows.value)
    ensures last.None? ==> NoneBelow(t[id := row], pid, p.position)
  {
    var t' := t[id := row];
    forall q | InProject(t', pid, q) && q != id
      ensures InProject(t, pid, q) && t'[q].position < p.position
    {
      assert InProject(t, pid, q);
    }
    if p.follows.Some? {
      var a := p.follows.value;
      assert last == Some(a) && a != id;
      forall q | InProject(t', pid, q) && t'[q].position < p.position
        ensures t'[q].position <= t'[a].position
      {
        assert InProject(t, pid, q);
      }
    }
  }

  /**
   * A phase inserted after `f` lies strictly between `f` and the phase that
   * followed `f`; afterwards its derived predecessor is `f`, `f`'s derived
   * follower is the phase, and the old follower now follows the phase.
   */
  lemma InsertedGoesBetween(t: PhaseTable, pid: Id, self: Option<Id>, f: Id, p: Placement, next: Option<Id>,
                            id: Id, row: Phase)
    requires Inserted(t, pid, self, f, p, next)
    requires self == Some(id) || (self.None? && id !in t)
    requires f != id
    requires row.projectId == pid && row.position == p.position
    ensures f in t && (next.Some? ==> next.value in t)
    ensures t[f].position < p.position
    ensures next.Some? ==> p.position < t[next.value].position
    ensures IsLastBelow(t[id := row], pid, p.position, f)
    ensures IsFirstAbove(t[id := row], pid, None, t[f].position, id)
    ensures next.Some? ==> IsLastBelow(t[id := row], pid, t[next.value].position, id)
    ensures next.None? ==> IsLast(t[id := row], pid, id)
  {
    var t' := t[id := row];
    assert InProject(t', pid, f);
    // Every other phase of the project sits at or below f, or at or above the old follower.
    forall q | InProject(t', pid, q) && q != id
      ensures t'[q].position <= t[f].position || (next.Some? && t[next.value].position <= t'[q].position)
    {
      assert InProject(t, pid, q) && Some(q) != self;
    }
    if next.Some? {
      assert next.value != id;
      assert InProject(t', pid, next.value);
    }
  }

  /** Saving or moving a phase through the rule never gives two phases of a project the same position. */
  lemma PlacementKeepsPositionsDistinct(t: PhaseTable, pid: Id, self: Option<Id>, p: Placement, anchor: Option<Id>,
                                        follows: Option<Id>, id: Id, row: Phase)
    requires DistinctPositions(t)
    requires follows.None? ==> Appended(t, pid, self, p, anchor)
    requires follows.Some? ==> Inserted(t, pid, self, follows.value, p, anchor) && follows.value != id
    requires self == Some(id) || (self.None? && id !in t)
    requires row.projectId == pid && row.position == p.position
    ensures DistinctPositions(t[id := row])
  {
    var t' := t[id := row];
    forall q | InProject(t', pid, q) && q != id
      ensures t'[q].position != p.position
    {
      if follows.None? {
        AppendedGoesLast(t, pid, self, p, anchor, id, row);
      } else {
        InsertedGoesBetween(t, pid, self, follows.value, p, anchor, id, row);
        assert InProject(t, pid, q) && Some(q) != self;
      }
    }
  }

  /** With distinct positions the derived `follows` is unique, so the order is a chain. */
  lemma FollowsIsUnique(t: PhaseTable, pid: Id, pos: real, a: Id, b: Id)
    requires DistinctPositions(t)
    requires IsLastBelow(t, pid, pos, a) && IsLastBelow(t, pid, pos, b)
    ensures a == b
  {
  }

  // ---------------------------------------------------------------------------
  // `get_phases_by_project_id`: the phases of a project in position order.

  ghost predicate SortedByPosition(t: PhaseTable, s: seq<Id>)
  {
    (forall i :: 0 <= i < |s| ==> s[i] in t) &&
    forall i, j :: 0 <= i < j < |s| ==> t[s[i]].position <= t[s[j]].position
  }

  /** Inserts `id` into a position-sorted list before the first phase not below it. */
  function InsertByPosition(t: PhaseTable, s: seq<Id>, id: Id): (r: seq<Id>)
    requires id in t && SortedByPosition(t, s)
    ensures SortedByPosition(t, r)
    ensures multiset(r) == multiset(s) + multiset{id}
    ensures |r| == |s| + 1 && (r[0] == id || (s != [] && r[0] == s[0]))
  {
    if s == [] || t[id].position <= t[s[0]].position then [id] + s
    else
      assert s == [s[0]] + s[1..];
      [s[0]] + InsertByPosition(t, s[1..], id)
  }

  /** A list in which nothing occurs twice has no two equal entries. */
  lemma SingleOccurrences(s: seq<Id>)
    requires forall q :: multiset(s)[q] <= 1
    ensures forall i, j :: 0 <= i < j < |s| ==> s[i] != s[j]
  {
    forall i, j | 0 <= i < j < |s|
      ensures s[i] != s[j]
    {
      assert s == s[..i] + [s[i]] + s[i+1..j] + [s[j]] + s[j+1..];
      assert multiset(s) == multiset(s[..i]) + multiset{s[i]} + multiset(s[i+1..j]) + multiset{s[j]} + multiset(s[j+1..]);
      assert multiset(s)[s[i]] >= 1 + (if s[j] == s[i] then 1 else 0);
    }
  }

  /** The phases of `pid`, each once, in non-decreasing position order. */
  method PhasesInOrder(t: PhaseTable, pid: Id) returns (s: seq<Id>)
    ensures SortedByPosition(t, s)
    ensures forall i :: 0 <= i < |s| ==> InProject(t, pid, s[i])
    ensures forall q :: InProject(t, pid, q) ==> q in s
    ensures forall i, j :: 0 <= i < j < |s| ==> s[i] != s[j]
  {
    s := [];
    var rest := t.Keys;
    while rest != {}
      invariant rest <= t.Keys
      invariant SortedByPosition(t, s)
      invariant forall x :: x in multiset(s) ==> InProject(t, pid, x) && x !in rest
      invariant forall q :: InProject(t, pid, q) ==> q in multiset(s) || q in rest
      invariant forall q :: multiset(s)[q] <= 1
      decreases rest
    {
      var k :| k in rest;
      rest := rest - {k};
      if t[k].projectId == pid {
        assert k !in multiset(s);
        s := InsertByPosition(t, s, k);
      }
    }
    SingleOccurrences(s);
    forall i | 0 <= i < |s|
      ensures InProject(t, pid, s[i])
    {
      assert s[i] in multiset(s);
    }
  }

  /**
   * With distinct positions, consecutive phases of the ordered list are each
   * other's derived `follows` and `follower`; the first phase follows nothing.
   */
  lemma OrderedListIsChain(t: PhaseTable, pid: Id, s: seq<Id>, i: int)
    requires DistinctPositions(t)
    requires SortedByPosition(t, s)
    requires forall a, b :: 0 <= a < b < |s| ==> s[a] != s[b]
    requires forall k :: 0 <= k < |s| ==> InProject(t, pid, s[k])
    requires forall q :: InProject(t, pid, q) ==> q in s
    requires 0 <= i < |s|
    ensures i == 0 ==> NoneBelow(t, pid, t[s[i]].position)
    ensures 0 < i ==> IsLastBelow(t, pid, t[s[i]].position, s[i-1])
    ensures i + 1 < |s| ==> IsFirstAbove(t, pid, None, t[s[i]].position, s[i+1])
    ensures i + 1 == |s| ==> IsLast(t, pid, s[i])
  {
    forall q | InProject(t, pid, q)
      ensures t[q].position < t[s[i]].position ==> (0 < i && t[q].position <= t[s[i-1]].position)
      ensures t[s[i]].position < t[q].position ==> (i + 1 < |s| && t[s[i+1]].position <= t[q].position)
    {
      var j :| 0 <= j < |s| && s[j] == q;
      if j < i {
        assert t[s[j]].position <= t[s[i-1]].position || j == i - 1;
      }
      if j > i {
        assert t[s[i+1]].position <= t[s[j]].position || j == i + 1;
      }
      if j == i {
        assert q == s[i];
      }
    }
    if 0 < i {
      assert s[i-1] != s[i] ==> t[s[i-1]].position != t[s[i]].position;
    }
    if i + 1 < |s| {
      assert s[i+1] != s[i] ==> t[s[i+1]].position != t[s[i]].position;
    }
  }
}
