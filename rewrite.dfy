/** Rewriting a condition tree so that it no longer references a deleted segment or scoring
    (updateSegmentDependentCondition, updateScoringDependentCondition). */
module Rewrite {
  import opened Wrappers
  import opened Lists
  import opened Conditions
  import opened Impact

  /** The id being deleted and what kind of definition it names. */
  datatype Target = SegmentTarget(segmentId: string) | ScoringTarget(scoringId: string)

  /** The sub-conditions of a booleanCondition; a missing list is read as empty. */
  function BooleanChildren(c: Condition): (r: seq<Condition>)
    ensures forall j :: 0 <= j < |r| ==> r[j] < c
  {
    match SubConditions(c)
    case Some(subs) => subs
    case None => []
  }

  /** The treatment of a node that is not a booleanCondition. A profileSegmentCondition holding the
      segment id loses the first occurrence of it, and becomes null if its list empties; a
      scoringCondition on the scoring id becomes null; every other node is kept as it is. */
  function RewriteLeaf(c: Condition, t: Target): Option<Condition> {
    match t
    case SegmentTarget(id) =>
      if c.typeId == ProfileSegmentCondition && id in SegmentIds(c) then
        var rest := RemoveFirst(SegmentIds(c), id);
        if |rest| == 0 then None else Some(SetParameter(c, SegmentsParam, StrListValue(rest)))
      else Some(c)
    case ScoringTarget(id) =>
      if c.typeId == ScoringCondition && ParamEquals(c, ScoringPlanIdParam, id) then None else Some(c)
  }

  /** The rewrite of a whole tree. A booleanCondition rewrites each sub-condition and drops those
      that come back null: zero survivors make it null, one survivor replaces it, otherwise it keeps
      the survivors as its sub-conditions. */
  function Rewrite(c: Condition, t: Target): Option<Condition>
    decreases c, 1
  {
    if c.typeId == BooleanCondition then
      var kept := Somes(RewrittenChildren(c, t));
      if |kept| == 0 then None
      else if |kept| == 1 then Some(kept[0])
      else Some(SetParameter(c, SubConditionsParam, CondListValue(kept)))
    else RewriteLeaf(c, t)
  }

  /** The rewritten sub-conditions of a booleanCondition, null ones included, in order. */
  function RewrittenChildren(c: Condition, t: Target): (r: seq<Option<Condition>>)
    ensures |r| == |BooleanChildren(c)|
    decreases c, 0
  {
    var subs := BooleanChildren(c);
    seq(|subs|, j requires 0 <= j < |subs| => Rewrite(subs[j], t))
  }

  lemma RewrittenChildAt(c: Condition, t: Target, k: nat)
    requires k < |BooleanChildren(c)|
    ensures RewrittenChildren(c, t)[k] == Rewrite(BooleanChildren(c)[k], t)
  {
  }

  lemma {:induction false} SomesSnoc<T>(s: seq<Option<T>>, x: Option<T>)
    ensures Somes(s + [x]) == Somes(s) + (if x.Some? then [x.value] else [])
  {
    if |s| > 0 {
      assert (s + [x])[1..] == s[1..] + [x];
      SomesSnoc(s[1..], x);
    }
  }

  /** The loop of updateSegmentDependentCondition over the sub-conditions: the non-null
      rewrites, in order. */
  method UpdateSegmentSubConditions(condition: Condition, segmentId: string) returns (updatedSubConditions: seq<Condition>)
    ensures updatedSubConditions == Somes(RewrittenChildren(condition, SegmentTarget(segmentId)))
    decreases condition, 0
  {
    var subConditions := BooleanChildren(condition);
    ghost var done := RewrittenChildren(condition, SegmentTarget(segmentId));
    updatedSubConditions := [];
    var k := 0;
    while k < |subConditions|
      invariant 0 <= k <= |subConditions| == |done|
      invariant updatedSubConditions == Somes(done[..k])
    {
      var updatedCondition := UpdateSegmentDependentCondition(subConditions[k], segmentId);
      RewrittenChildAt(condition, SegmentTarget(segmentId), k);
      SomesExtend(done, k, updatedSubConditions, updatedCondition);
      if updatedCondition.Some? {
        updatedSubConditions := updatedSubConditions + [updatedCondition.value];
      }
      k := k + 1;
    }
    assert done[..k] == done;
  }

  /** One more step of the loop: the survivors so far, and the next rewrite if it is not null. */
  lemma SomesExtend<T>(s: seq<Option<T>>, k: nat, acc: seq<T>, x: Option<T>)
    requires k < |s| && acc == Somes(s[..k]) && s[k] == x
    ensures x.Some? ==> acc + [x.value] == Somes(s[..k + 1])
    ensures x.None? ==> acc == Somes(s[..k + 1])
  {
    SomesPrefix(s, k);
  }

  lemma SomesPrefix<T>(s: seq<Option<T>>, k: nat)
    requires k < |s|
    ensures Somes(s[..k + 1]) == Somes(s[..k]) + (if s[k].Some? then [s[k].value] else [])
  {
    assert s[..k + 1] == s[..k] + [s[k]];
    SomesSnoc(s[..k], s[k]);
  }

  /** updateSegmentDependentCondition. */
  method UpdateSegmentDependentCondition(condition: Condition, segmentId: string) returns (r: Option<Condition>)
    ensures r == Rewrite(condition, SegmentTarget(segmentId))
    decreases condition, 1
  {
    if condition.typeId == BooleanCondition {
      var updatedSubConditions := UpdateSegmentSubConditions(condition, segmentId);
      if |updatedSubConditions| != 0 {
        if |updatedSubConditions| == 1 {
          return Some(updatedSubConditions[0]);
        } else {
          return Some(SetParameter(condition, SubConditionsParam, CondListValue(updatedSubConditions)));
        }
      } else {
        return None;
      }
    } else if condition.typeId == ProfileSegmentCondition {
      var referencedSegmentIds := SegmentIds(condition);
      if FirstIndex(referencedSegmentIds, segmentId).Some? {
        referencedSegmentIds := RemoveFirst(referencedSegmentIds, segmentId);
        if |referencedSegmentIds| == 0 {
          return None;
        } else {
          return Some(SetParameter(condition, SegmentsParam, StrListValue(referencedSegmentIds)));
        }
      }
    }
    return Some(condition);
  }

  /** The loop of updateScoringDependentCondition over the sub-conditions: the non-null
      rewrites, in order. */
  method UpdateScoringSubConditions(condition: Condition, scoringId: string) returns (updatedSubConditions: seq<Condition>)
    ensures updatedSubConditions == Somes(RewrittenChildren(condition, ScoringTarget(scoringId)))
    decreases condition, 0
  {
    var subConditions := BooleanChildren(condition);
    ghost var done := RewrittenChildren(condition, ScoringTarget(scoringId));
    updatedSubConditions := [];
    var k := 0;
    while k < |subConditions|
      invariant 0 <= k <= |subConditions| == |done|
      invariant updatedSubConditions == Somes(done[..k])
    {
      var updatedCondition := UpdateScoringDependentCondition(subConditions[k], scoringId);
      RewrittenChildAt(condition, ScoringTarget(scoringId), k);
      SomesExtend(done, k, updatedSubConditions, updatedCondition);
      if updatedCondition.Some? {
        updatedSubConditions := updatedSubConditions + [updatedCondition.value];
      }
      k := k + 1;
    }
    assert done[..k] == done;
  }

  /** updateScoringDependentCondition. */
  method UpdateScoringDependentCondition(condition: Condition, scoringId: string) returns (r: Option<Condition>)
    ensures r == Rewrite(condition, ScoringTarget(scoringId))
    decreases condition, 1
  {
    if condition.typeId == BooleanCondition {
      var updatedSubConditions := UpdateScoringSubConditions(condition, scoringId);
      if |updatedSubConditions| != 0 {
        if |updatedSubConditions| == 1 {
          return Some(updatedSubConditions[0]);
        } else {
          return Some(SetParameter(condition, SubConditionsParam, CondListValue(updatedSubConditions)));
        }
      } else {
        return None;
      }
    } else if condition.typeId == ScoringCondition && ParamEquals(condition, ScoringPlanIdParam, scoringId) {
      return None;
    }
    return Some(condition);
  }

  /** The leaf test of the deletion check that matches the target. */
  predicate Targets(n: Condition, t: Target) {
    match t
    case SegmentTarget(id) => IsSegmentReference(n, id)
    case ScoringTarget(id) => IsScoringReference(n, id)
  }

  /** The deletion check that matches the target. */
  function Impacted(c: Option<Condition>, t: Target): bool {
    match t
    case SegmentTarget(id) => CheckSegmentDeletionImpact(c, id)
    case ScoringTarget(id) => CheckScoringDeletionImpact(c, id)
  }

  lemma ImpactedIffLeaf(c: Condition, t: Target)
    ensures Impacted(Some(c), t) <==> exists n :: ReachableLeaf(c, n) && Targets(n, t)
  {
    match t
    case SegmentTarget(id) =>
      assert forall n :: Targets(n, t) == IsSegmentReference(n, id);
    case ScoringTarget(id) =>
      assert forall n :: Targets(n, t) == IsScoringReference(n, id);
  }

  /** A list with exactly one Some, at j, keeps exactly that value. */
  lemma {:induction false} SomesSingle<T>(s: seq<Option<T>>, j: nat)
    requires j < |s| && s[j].Some?
    requires forall i :: 0 <= i < |s| && i != j ==> s[i].None?
    ensures Somes(s) == [s[j].value]
  {
    if j == 0 {
      SomesEmpty(s[1..]);
    } else {
      assert s[1..][j - 1] == s[j];
      SomesSingle(s[1..], j - 1);
    }
  }

  /** Every survivor of a booleanCondition's rewrite is the rewrite of one of its sub-conditions. */
  lemma SurvivorOrigin(c: Condition, t: Target, i: nat)
    requires i < |Somes(RewrittenChildren(c, t))|
    ensures exists j :: 0 <= j < |BooleanChildren(c)| && Rewrite(BooleanChildren(c)[j], t) == Some(Somes(RewrittenChildren(c, t))[i])
  {
    var rc := RewrittenChildren(c, t);
    SomesFrom(rc, i);
    var j :| 0 <= j < |rc| && rc[j] == Some(Somes(rc)[i]);
  }

  /** A booleanCondition rewrites to null exactly when every sub-condition rewrites to null. */
  lemma BooleanRewriteNull(c: Condition, t: Target)
    requires c.typeId == BooleanCondition
    ensures Rewrite(c, t).None? <==>
            forall j :: 0 <= j < |BooleanChildren(c)| ==> Rewrite(BooleanChildren(c)[j], t).None?
  {
    var rc := RewrittenChildren(c, t);
    SomesEmpty(rc);
    assert forall j :: 0 <= j < |rc| ==> rc[j] == Rewrite(BooleanChildren(c)[j], t);
  }

  /** A single surviving sub-condition replaces the booleanCondition itself. */
  lemma BooleanRewriteSingle(c: Condition, t: Target, j: nat)
    requires c.typeId == BooleanCondition
    requires j < |BooleanChildren(c)| && Rewrite(BooleanChildren(c)[j], t).Some?
    requires forall i :: 0 <= i < |BooleanChildren(c)| && i != j ==> Rewrite(BooleanChildren(c)[i], t).None?
    ensures Rewrite(c, t) == Rewrite(BooleanChildren(c)[j], t)
  {
    var rc := RewrittenChildren(c, t);
    assert forall i :: 0 <= i < |rc| ==> rc[i] == Rewrite(BooleanChildren(c)[i], t);
    SomesSingle(rc, j);
  }

  /** Two or more survivors are kept, in order, as the sub-conditions of the same node, whose other
      parameters are untouched. */
  lemma BooleanRewriteMany(c: Condition, t: Target)
    requires c.typeId == BooleanCondition && |Somes(RewrittenChildren(c, t))| >= 2
    ensures Rewrite(c, t).Some?
    ensures Rewrite(c, t).value.typeId == BooleanCondition
    ensures SubConditions(Rewrite(c, t).value) == Some(Somes(RewrittenChildren(c, t)))
    ensures forall name :: name != SubConditionsParam ==> GetParameter(Rewrite(c, t).value, name) == GetParameter(c, name)
  {
  }

  /** A profileSegmentCondition holding the deleted segment loses exactly one occurrence of it, and
      becomes null exactly when that occurrence was its only entry; nothing else in it changes. */
  lemma SegmentReferenceRewrite(c: Condition, segmentId: string)
    requires c.typeId == ProfileSegmentCondition && segmentId in SegmentIds(c)
    ensures Rewrite(c, SegmentTarget(segmentId)).None? <==> SegmentIds(c) == [segmentId]
    ensures Rewrite(c, SegmentTarget(segmentId)).Some? ==>
            var r := Rewrite(c, SegmentTarget(segmentId)).value;
            && r.typeId == c.typeId
            && SegmentIds(r) == RemoveFirst(SegmentIds(c), segmentId)
            && |SegmentIds(r)| == |SegmentIds(c)| - 1
            && multiset(SegmentIds(r)) == multiset(SegmentIds(c)) - multiset{segmentId}
            && forall name :: name != SegmentsParam ==> GetParameter(r, name) == GetParameter(c, name)
  {
    var ids := SegmentIds(c);
    RemoveFirstMultiset(ids, segmentId);
    if |ids| == 1 { assert ids == [ids[0]] && ids[0] == segmentId; }
  }

  /** A scoringCondition on the deleted scoring rewrites to null. */
  lemma ScoringReferenceRewrite(c: Condition, scoringId: string)
    requires IsScoringReference(c, scoringId)
    ensures Rewrite(c, ScoringTarget(scoringId)) == None
  {
  }

  /** Any node that is neither a booleanCondition nor a reference to the target is returned as is,
      whatever it holds below it. */
  lemma OtherNodeRewrite(c: Condition, t: Target)
    requires c.typeId != BooleanCondition && !Targets(c, t)
    ensures Rewrite(c, t) == Some(c)
  {
  }

  /** Trees on which the rewrite removes every reference: every node with a "subConditions" list is
      a booleanCondition (the rewrite descends into nothing else) and no segment list names the
      deleted segment twice (only the first occurrence is removed). */
  ghost predicate Rewritable(c: Condition, t: Target) {
    match SubConditions(c)
    case Some(subs) => c.typeId == BooleanCondition && forall j :: 0 <= j < |subs| ==> Rewritable(subs[j], t)
    case None => t.SegmentTarget? && c.typeId == ProfileSegmentCondition ==> multiset(SegmentIds(c))[t.segmentId] <= 1
  }

  lemma {:induction false} RewriteLeavesNoTargetLeaf(c: Condition, t: Target)
    requires Rewritable(c, t)
    ensures Rewrite(c, t).Some? ==> forall n :: ReachableLeaf(Rewrite(c, t).value, n) ==> !Targets(n, t)
    decreases c, 1
  {
    if c.typeId == BooleanCondition {
      BooleanRewriteLeavesNoTargetLeaf(c, t);
    } else {
      LeafRewriteLeavesNoTargetLeaf(c, t);
    }
  }

  /** The booleanCondition case: every survivor is the rewrite of a child. */
  lemma {:induction false} BooleanRewriteLeavesNoTargetLeaf(c: Condition, t: Target)
    requires Rewritable(c, t) && c.typeId == BooleanCondition
    ensures Rewrite(c, t).Some? ==> forall n :: ReachableLeaf(Rewrite(c, t).value, n) ==> !Targets(n, t)
    decreases c, 0
  {
    if Rewrite(c, t).Some? {
      var r := Rewrite(c, t).value;
      var subs, kept := BooleanChildren(c), Somes(RewrittenChildren(c, t));
      assert SubConditions(c).Some? ==> subs == SubConditions(c).value;
      forall i | 0 <= i < |kept|
        ensures forall n :: ReachableLeaf(kept[i], n) ==> !Targets(n, t)
      {
        SurvivorOrigin(c, t, i);
        var j :| 0 <= j < |subs| && Rewrite(subs[j], t) == Some(kept[i]);
        RewriteLeavesNoTargetLeaf(subs[j], t);
      }
      if |kept| >= 2 {
        assert SubConditions(r) == Some(kept);
      }
    }
  }

  /** Any other node: only a segment list naming the deleted segment changes, and loses it. */
  lemma LeafRewriteLeavesNoTargetLeaf(c: Condition, t: Target)
    requires Rewritable(c, t) && c.typeId != BooleanCondition
    ensures Rewrite(c, t).Some? ==> forall n :: ReachableLeaf(Rewrite(c, t).value, n) ==> !Targets(n, t)
  {
    if Rewrite(c, t).Some? {
      var r := Rewrite(c, t).value;
      assert SubConditions(c).None?;
      if t.SegmentTarget? && c.typeId == ProfileSegmentCondition && t.segmentId in SegmentIds(c) {
        RemoveFirstCounts(SegmentIds(c), t.segmentId, t.segmentId);
        assert GetParameter(r, SubConditionsParam) == GetParameter(c, SubConditionsParam);
        assert SubConditions(r).None?;
      }
    }
  }

  /** On a rewritable tree the rewritten condition no longer references the deleted id. */
  lemma RewriteRemovesReference(c: Condition, t: Target)
    requires Rewritable(c, t)
    ensures !Impacted(Rewrite(c, t), t)
  {
    RewriteLeavesNoTargetLeaf(c, t);
    if Rewrite(c, t).Some? { ImpactedIffLeaf(Rewrite(c, t).value, t); }
  }

  /** No booleanCondition reached through booleanConditions has fewer than two sub-conditions. */
  ghost predicate Collapsed(c: Condition) {
    c.typeId == BooleanCondition ==>
      match SubConditions(c)
      case None => false
      case Some(subs) => |subs| >= 2 && forall j :: 0 <= j < |subs| ==> Collapsed(subs[j])
  }

  /** The rewrite never leaves an empty or unary boolean combinator on its boolean spine. */
  lemma {:induction false} RewriteCollapsed(c: Condition, t: Target)
    ensures Rewrite(c, t).Some? ==> Collapsed(Rewrite(c, t).value)
    decreases c
  {
    if Rewrite(c, t).Some? && c.typeId == BooleanCondition {
      var subs, kept := BooleanChildren(c), Somes(RewrittenChildren(c, t));
      forall i | 0 <= i < |kept| ensures Collapsed(kept[i]) {
        SurvivorOrigin(c, t, i);
        var j :| 0 <= j < |subs| && Rewrite(subs[j], t) == Some(kept[i]);
        RewriteCollapsed(subs[j], t);
      }
      if |kept| >= 2 {
        assert SubConditions(Rewrite(c, t).value) == Some(kept);
      }
    }
  }

  /** As written, a segment listed twice survives one deletion: the rewritten node still
      references it. */
  lemma DuplicateReferenceSurvives(segmentId: string, params: Params)
    requires params == [(SegmentsParam, StrListValue([segmentId, segmentId]))]
    ensures var c := Condition(ProfileSegmentCondition, {}, params);
            CheckSegmentDeletionImpact(Some(c), segmentId) &&
            Rewrite(c, SegmentTarget(segmentId)).Some? &&
            CheckSegmentDeletionImpact(Rewrite(c, SegmentTarget(segmentId)), segmentId)
  {
    var c := Condition(ProfileSegmentCondition, {}, params);
    assert ParamIndex(params, SegmentsParam) == Some(0);
    assert SegmentIds(c) == [segmentId, segmentId];
    LeafImpacted(c, segmentId);
    var r := DuplicateRewritten(segmentId, c);
    LeafImpacted(r, segmentId);
  }

  /** The rewrite of a leaf listing the id twice keeps one of the two. */
  lemma DuplicateRewritten(segmentId: string, c: Condition) returns (r: Condition)
    requires c == Condition(ProfileSegmentCondition, {}, [(SegmentsParam, StrListValue([segmentId, segmentId]))])
    ensures Rewrite(c, SegmentTarget(segmentId)) == Some(r)
    ensures SubConditions(r).None? && IsSegmentReference(r, segmentId)
  {
    assert ParamIndex(c.params, SegmentsParam) == Some(0);
    assert SegmentIds(c) == [segmentId, segmentId];
    assert SubConditions(c).None?;
    assert RemoveFirst([segmentId, segmentId], segmentId) == [segmentId];
    r := SetParameter(c, SegmentsParam, StrListValue([segmentId]));
    assert Rewrite(c, SegmentTarget(segmentId)) == Some(r);
    assert r.typeId == ProfileSegmentCondition && SegmentIds(r) == [segmentId];
  }

  /** A leaf that references the segment is reported as impacted. */
  lemma LeafImpacted(c: Condition, segmentId: string)
    requires SubConditions(c).None? && IsSegmentReference(c, segmentId)
    ensures CheckSegmentDeletionImpact(Some(c), segmentId)
  {
    assert ReachableLeaf(c, c);
  }

  /** As written, the check descends into any node with "subConditions" but the rewrite only into
      booleanConditions: such a node is reported as impacted and comes back unchanged. */
  lemma NonBooleanContainerUnchanged(segmentId: string, typeId: string, inner: Condition)
    requires typeId != BooleanCondition && typeId != ProfileSegmentCondition
    requires inner == Condition(ProfileSegmentCondition, {}, [(SegmentsParam, StrListValue([segmentId]))])
    ensures var c := Condition(typeId, {}, [(SubConditionsParam, CondListValue([inner]))]);
            CheckSegmentDeletionImpact(Some(c), segmentId) &&
            Rewrite(c, SegmentTarget(segmentId)) == Some(c)
  {
    var c := Condition(typeId, {}, [(SubConditionsParam, CondListValue([inner]))]);
    assert SubConditions(c) == Some([inner]);
    var subs := SubConditions(c).value;
    assert subs[0] == inner && SubConditions(inner).None?;
    assert ReachableLeaf(subs[0], inner);
    assert ReachableLeaf(c, inner);
  }
}
