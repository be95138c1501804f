/** Deletion impact analysis: does a condition tree reference a segment or a scoring that is about
    to be deleted (checkSegmentDeletionImpact, checkScoringDeletionImpact) and which cached
    definitions depend on it. */
module Impact {
  import opened Wrappers
  import opened Conditions
  import opened Definitions

  /** A node that holds the segment id in its "segments" list. */
  predicate IsSegmentReference(n: Condition, segmentId: string) {
    n.typeId == ProfileSegmentCondition && segmentId in SegmentIds(n)
  }

  /** A node whose "scoringPlanId" is the scoring id. */
  predicate IsScoringReference(n: Condition, scoringId: string) {
    n.typeId == ScoringCondition && ParamEquals(n, ScoringPlanIdParam, scoringId)
  }

  /** The shape both checks share: a node with a "subConditions" list is impacted when one of its
      sub-conditions is, any other node when the leaf test holds of it. */
  predicate Reaches(c: Condition, leaf: Condition -> bool)
    decreases c, 1
  {
    match SubConditions(c)
    case Some(subs) => ReachesAny(subs, leaf, c)
    case None => leaf(c)
  }

  /** The loop over the sub-conditions, returning as soon as one is impacted. */
  predicate ReachesAny(subs: seq<Condition>, leaf: Condition -> bool, ghost parent: Condition)
    requires forall j :: 0 <= j < |subs| ==> subs[j] < parent
    decreases parent, 0, |subs|
  {
    |subs| > 0 && (Reaches(subs[0], leaf) || ReachesAny(subs[1..], leaf, parent))
  }

  /** n is reached from c by descending through "subConditions" lists and has no such list. */
  ghost predicate ReachableLeaf(c: Condition, n: Condition) {
    match SubConditions(c)
    case None => n == c
    case Some(subs) => exists j :: 0 <= j < |subs| && ReachableLeaf(subs[j], n)
  }

  lemma {:induction false} ReachesIffLeaf(c: Condition, leaf: Condition -> bool)
    ensures Reaches(c, leaf) <==> exists n :: ReachableLeaf(c, n) && leaf(n)
    decreases c, 1
  {
    match SubConditions(c)
    case None =>
    case Some(subs) =>
      ReachesAnyIffLeaf(subs, leaf, c);
  }

  lemma {:induction false} ReachesAnyIffLeaf(subs: seq<Condition>, leaf: Condition -> bool, parent: Condition)
    requires forall j :: 0 <= j < |subs| ==> subs[j] < parent
    ensures ReachesAny(subs, leaf, parent) <==>
            exists j, n :: 0 <= j < |subs| && ReachableLeaf(subs[j], n) && leaf(n)
    decreases parent, 0, |subs|
  {
    if |subs| > 0 {
      ReachesIffLeaf(subs[0], leaf);
      ReachesAnyIffLeaf(subs[1..], leaf, parent);
      if exists j, n :: 0 <= j < |subs| && ReachableLeaf(subs[j], n) && leaf(n) {
        var j, n :| 0 <= j < |subs| && ReachableLeaf(subs[j], n) && leaf(n);
        if j > 0 { assert subs[1..][j - 1] == subs[j]; }
      }
    }
  }

  /** checkSegmentDeletionImpact: a null condition is never impacted; otherwise the tree is
      impacted exactly when a node reached through "subConditions" lists, and holding none, is a
      profileSegmentCondition whose "segments" list contains the id. */
  function CheckSegmentDeletionImpact(condition: Option<Condition>, segmentToDeleteId: string): (r: bool)
    ensures r <==> condition.Some? &&
                   exists n :: ReachableLeaf(condition.value, n) && IsSegmentReference(n, segmentToDeleteId)
  {
    match condition
    case None => false
    case Some(c) =>
      var leaf := (n: Condition) => IsSegmentReference(n, segmentToDeleteId);
      ReachesIffLeaf(c, leaf);
      Reaches(c, leaf)
  }

  /** checkScoringDeletionImpact: the same walk, testing "scoringPlanId" equality. */
  function CheckScoringDeletionImpact(condition: Option<Condition>, scoringToDeleteId: string): (r: bool)
    ensures r <==> condition.Some? &&
                   exists n :: ReachableLeaf(condition.value, n) && IsScoringReference(n, scoringToDeleteId)
  {
    match condition
    case None => false
    case Some(c) =>
      var leaf := (n: Condition) => IsScoringReference(n, scoringToDeleteId);
      ReachesIffLeaf(c, leaf);
      Reaches(c, leaf)
  }

  /** The dependency tests of getSegmentDependentSegments / getSegmentDependentScorings: a scoring
      depends on the segment when any one of its elements does. */
  predicate SegmentDependsOnSegment(s: Segment, segmentId: string) {
    CheckSegmentDeletionImpact(s.condition, segmentId)
  }

  predicate ScoringDependsOnSegment(sc: Scoring, segmentId: string) {
    exists j :: 0 <= j < |sc.elements| && CheckSegmentDeletionImpact(Some(sc.elements[j].condition), segmentId)
  }

  predicate SegmentDependsOnScoring(s: Segment, scoringId: string) {
    CheckScoringDeletionImpact(s.condition, scoringId)
  }

  predicate ScoringDependsOnScoring(sc: Scoring, scoringId: string) {
    exists j :: 0 <= j < |sc.elements| && CheckScoringDeletionImpact(Some(sc.elements[j].condition), scoringId)
  }
}
