/** The value-level pieces of the bulk profile update pipeline: the field changes sent for one
    profile (buildPropertiesMapForUpdateSegment), the queries that select the profiles to update,
    how past-event counts are cut into batches (updateProfilesWithPastEventProperty), how many
    partitions the past-event aggregation uses, and the layout of the scoring scripts. */
module Bulk {
  import opened Wrappers
  import opened Conditions
  import opened Definitions
  import opened Classification

  /** The source map of a segment update: the profile's "segments" and "systemProperties". */
  datatype SegmentUpdateSource = SegmentUpdateSource(segments: set<string>, systemProperties: SystemProperties)

  /** buildPropertiesMapForUpdateSegment: the profile with the segment added or removed and
      lastUpdated stamped, and the map of the two fields the store is sent. */
  function BuildPropertiesMapForUpdateSegment(profile: Profile, segmentId: string, isAdd: bool, now: int)
    : (r: (Profile, SegmentUpdateSource))
    ensures r.0.itemId == profile.itemId && r.0.scores == profile.scores
    ensures isAdd ==> segmentId in r.0.segments
    ensures !isAdd ==> segmentId !in r.0.segments
    ensures forall other :: other != segmentId ==> (other in r.0.segments <==> other in profile.segments)
    ensures r.0.systemProperties.pastEvents == profile.systemProperties.pastEvents
    ensures r.0.systemProperties.scoreModifiers == profile.systemProperties.scoreModifiers
    ensures r.0.systemProperties.lastUpdated == Some(now)
    ensures r.1.segments == r.0.segments && r.1.systemProperties == r.0.systemProperties
  {
    var segments := if isAdd then profile.segments + {segmentId} else profile.segments - {segmentId};
    var updated := profile.(segments := segments,
                            systemProperties := profile.systemProperties.(lastUpdated := Some(now)));
    (updated, SegmentUpdateSource(updated.segments, updated.systemProperties))
  }

  /** The profile as the store holds it after a partial update with a segment source map. */
  function ApplySegmentSource(p: Profile, source: SegmentUpdateSource): Profile {
    p.(segments := source.segments, systemProperties := source.systemProperties)
  }

  /** The profile the update builds from p. */
  function SegmentUpdated(p: Profile, segmentId: string, isAdd: bool, now: int): Profile {
    BuildPropertiesMapForUpdateSegment(p, segmentId, isAdd, now).0
  }

  /** Storing the source map gives the store the same profile the caller now holds. */
  lemma SourceMatchesProfile(p: Profile, segmentId: string, isAdd: bool, now: int)
    ensures var built := BuildPropertiesMapForUpdateSegment(p, segmentId, isAdd, now);
            ApplySegmentSource(p, built.1) == built.0
  {
  }

  /** Rebuilding from an already updated profile changes nothing, so a retry that reloads a profile
      whose update did go through is harmless. */
  lemma BuildIdempotent(p: Profile, segmentId: string, isAdd: bool, now: int)
    ensures SegmentUpdated(SegmentUpdated(p, segmentId, isAdd, now), segmentId, isAdd, now) ==
            SegmentUpdated(p, segmentId, isAdd, now)
  {
    var once := SegmentUpdated(p, segmentId, isAdd, now);
    var twice := SegmentUpdated(once, segmentId, isAdd, now);
    assert twice.segments == once.segments;
  }

  /** Adding then removing the segment leaves the other memberships as they were and the segment out. */
  lemma AddThenRemove(p: Profile, segmentId: string, now: int, later: int)
    ensures SegmentUpdated(SegmentUpdated(p, segmentId, true, now), segmentId, false, later).segments ==
            p.segments - {segmentId}
  {
    var added := SegmentUpdated(p, segmentId, true, now);
    var removed := SegmentUpdated(added, segmentId, false, later);
    assert forall x :: x in removed.segments <==> x in p.segments - {segmentId};
  }

  // ---------------------------------------------------------------------------------------------
  // The conditions the pipeline builds to select profiles. Their system tags come from condition
  // types the model does not load, and are left empty.

  const SegmentsProperty := "segments"
  const TimeStampProperty := "timeStamp"

  function PropertyCondition(typeId: string, propertyName: string, operator: string, valueName: string, value: string): Condition {
    Condition(typeId, {}, [(PropertyNameParam, StrValue(propertyName)), (ComparisonOperatorParam, StrValue(operator)),
                           (valueName, StrValue(value))])
  }

  /** The profiles currently in the segment: "segments" equals the id. */
  function MembershipQuery(segmentId: string): Condition {
    PropertyCondition(ProfilePropertyCondition, SegmentsProperty, "equals", PropertyValueParam, segmentId)
  }

  function AndOf(subs: seq<Condition>): Condition {
    Condition(BooleanCondition, {}, [(OperatorParam, StrValue("and")), (SubConditionsParam, CondListValue(subs))])
  }

  function NotOf(c: Condition): Condition {
    Condition(NotCondition, {}, [(SubConditionParam, CondValue(c))])
  }

  /** Profiles that match the segment's condition but are not yet members. */
  function ProfilesToAdd(condition: Condition, segmentId: string): Condition {
    AndOf([condition, NotOf(MembershipQuery(segmentId))])
  }

  /** Members that no longer match the segment's condition. */
  function ProfilesToRemove(condition: Condition, segmentId: string): Condition {
    AndOf([MembershipQuery(segmentId), NotOf(condition)])
  }

  /** A store matcher that evaluates the pipeline's own query shapes as their names say. */
  ghost predicate Compositional(testMatch: Matcher) {
    && (forall subs, p :: testMatch(Some(AndOf(subs)), p) <==>
                          forall j :: 0 <= j < |subs| ==> testMatch(Some(subs[j]), p))
    && (forall c, p :: testMatch(Some(NotOf(c)), p) <==> !testMatch(Some(c), p))
    && (forall id, p :: testMatch(Some(MembershipQuery(id)), p) <==> id in p.segments)
  }

  /** One profile through the add pass and then the remove pass of an enabled segment. */
  function AfterSegmentPasses(p: Profile, condition: Condition, segmentId: string, testMatch: Matcher, now: int): Profile {
    var p1 := if testMatch(Some(ProfilesToAdd(condition, segmentId)), p) then SegmentUpdated(p, segmentId, true, now) else p;
    if testMatch(Some(ProfilesToRemove(condition, segmentId)), p1) then SegmentUpdated(p1, segmentId, false, now) else p1
  }

  /** With a matcher that evaluates the query shapes, and a segment condition that does not look at
      the fields the update itself writes, the two passes leave the profile in the segment exactly
      when it matches the condition, and touch no other membership. */
  lemma SegmentPassesAgree(p: Profile, condition: Condition, segmentId: string, testMatch: Matcher, now: int)
    requires Compositional(testMatch)
    requires testMatch(Some(condition), SegmentUpdated(p, segmentId, true, now)) == testMatch(Some(condition), p)
    ensures var q := AfterSegmentPasses(p, condition, segmentId, testMatch, now);
            && (segmentId in q.segments <==> testMatch(Some(condition), p))
            && forall other :: other != segmentId ==> (other in q.segments <==> other in p.segments)
  {
    var member := MembershipQuery(segmentId);
    var addSubs := [condition, NotOf(member)];
    assert testMatch(Some(ProfilesToAdd(condition, segmentId)), p) <==>
           testMatch(Some(condition), p) && segmentId !in p.segments by {
      assert testMatch(Some(AndOf(addSubs)), p) <==> testMatch(Some(addSubs[0]), p) && testMatch(Some(addSubs[1]), p);
    }
    var p1 := if testMatch(Some(ProfilesToAdd(condition, segmentId)), p) then SegmentUpdated(p, segmentId, true, now) else p;
    assert testMatch(Some(condition), p1) == testMatch(Some(condition), p);
    var removeSubs := [member, NotOf(condition)];
    assert testMatch(Some(ProfilesToRemove(condition, segmentId)), p1) <==>
           segmentId in p1.segments && !testMatch(Some(condition), p1) by {
      assert testMatch(Some(AndOf(removeSubs)), p1) <==> testMatch(Some(removeSubs[0]), p1) && testMatch(Some(removeSubs[1]), p1);
    }
  }

  // ---------------------------------------------------------------------------------------------
  // updateExistingProfilesForPastEventCondition: the aggregation query and its partitions.

  /** Integer.toString. */
  function DecimalString(n: int): (r: string)
    ensures |r| >= 1
    decreases if n < 0 then 1 - n else n
  {
    if n < 0 then "-" + DecimalString(-n)
    else if n < 10 then [('0' as int + n) as char]
    else DecimalString(n / 10) + [('0' as int + n % 10) as char]
  }

  /** The "numberOfDays" (an Integer), "fromDate" and "toDate" (Strings) of a parent condition; a
      value of another type is read as absent. */
  function IntParameter(c: Condition, name: string): Option<int> {
    match GetParameter(c, name)
    case Some(IntValue(n)) => Some(n)
    case _ => None
  }

  function StrParameter(c: Condition, name: string): Option<string> {
    match GetParameter(c, name)
    case Some(StrValue(s)) => Some(s)
    case _ => None
  }

  /** The conjuncts of the aggregation query: the event condition, then one session condition per
      bound the parent sets, in the order numberOfDays, fromDate, toDate. */
  function PastEventConjuncts(eventCondition: Condition, parent: Condition): (r: seq<Condition>)
    ensures |r| >= 1 && r[0] == eventCondition
    ensures |r| == 1 + (if IntParameter(parent, NumberOfDaysParam).Some? then 1 else 0)
                     + (if StrParameter(parent, FromDateParam).Some? then 1 else 0)
                     + (if StrParameter(parent, ToDateParam).Some? then 1 else 0)
  {
    var days := match IntParameter(parent, NumberOfDaysParam)
      case Some(n) => [PropertyCondition(SessionPropertyCondition, TimeStampProperty, "greaterThan", PropertyValueParam,
                                         "now-" + DecimalString(n) + "d")]
      case None => [];
    var from := match StrParameter(parent, FromDateParam)
      case Some(d) => [PropertyCondition(SessionPropertyCondition, TimeStampProperty, "greaterThanOrEqualTo", PropertyValueDateParam, d)]
      case None => [];
    var to := match StrParameter(parent, ToDateParam)
      case Some(d) => [PropertyCondition(SessionPropertyCondition, TimeStampProperty, "lessThanOrEqualTo", PropertyValueDateParam, d)]
      case None => [];
    [eventCondition] + days + from + to
  }

  function PastEventQuery(eventCondition: Condition, parent: Condition): Condition {
    AndOf(PastEventConjuncts(eventCondition, parent))
  }

  /** Java long division, which truncates toward zero. */
  function TruncDiv(a: int, b: int): (r: int)
    requires b != 0
    ensures a >= 0 && b > 0 ==> r == a / b
  {
    if (a >= 0) == (b > 0) then (if a >= 0 then a else -a) / (if b > 0 then b else -b)
    else -((if a >= 0 then a else -a) / (if b > 0 then b else -b))
  }

  /** numParts = (int) (card / aggregateQueryBucketSize) + 2; a zero bucket size divides by zero. */
  function PartitionCount(card: int, bucketSize: Int32): (r: Result<Int32>)
    ensures r.Err? <==> bucketSize == 0
  {
    if bucketSize == 0 then Err(ArithmeticError)
    else Ok(Wrap32(Wrap32(TruncDiv(card, bucketSize)) + 2))
  }

  /** For a representable quotient, the partitions are enough to hold the cardinality with at most a
      bucket's worth per partition, and there are always at least two. */
  lemma PartitionsCover(card: nat, bucketSize: Int32)
    requires bucketSize > 0 && card / bucketSize < 0x7fff_fffe
    ensures PartitionCount(card, bucketSize).Ok?
    ensures var n := PartitionCount(card, bucketSize).value;
            n == card / bucketSize + 2 && n >= 2 && (n - 1) * bucketSize > card
  {
    var q := card / bucketSize;
    assert TruncDiv(card, bucketSize) == q;
    assert card == q * bucketSize + card % bucketSize;
    assert (q + 1) * bucketSize == q * bucketSize + bucketSize;
  }

  /** The worked case: 12000 distinct profiles in buckets of 5000 give four partitions. */
  lemma PartitionExample()
    ensures PartitionCount(12000, 5000) == Ok(4)
  {
    assert TruncDiv(12000, 5000) == 2;
  }

  /** The int cast wraps: a cardinality whose quotient does not fit an int gives a count that may be
      negative, in which case no partition is visited. */
  lemma PartitionWraps()
    ensures PartitionCount(0x8000_0000, 1) == Ok(-0x7fff_fffe)
  {
  }

  // ---------------------------------------------------------------------------------------------
  // updateProfilesWithPastEventProperty: one entry per profile id, cut into batches.

  type PastEventEntry = (string, int)

  predicate Skipped(profileId: string) {
    |profileId| > 0 && profileId[0] == '_'
  }

  /** The batches submitted by the loop from entry k on, with batch accumulated so far: an entry
      whose id starts with "_" is skipped; the batch is submitted when it reaches the batch size, or
      at the last entry when it is not empty. */
  function BatchesFrom(entries: seq<PastEventEntry>, batchSize: int, k: nat, batch: seq<PastEventEntry>)
    : seq<seq<PastEventEntry>>
    decreases |entries| - k
  {
    if k >= |entries| then []
    else
      var b := if Skipped(entries[k].0) then batch else batch + [entries[k]];
      if |b| == batchSize || (k == |entries| - 1 && |b| > 0) then [b] + BatchesFrom(entries, batchSize, k + 1, [])
      else BatchesFrom(entries, batchSize, k + 1, b)
  }

  function PastEventBatches(entries: seq<PastEventEntry>, batchSize: int): seq<seq<PastEventEntry>> {
    BatchesFrom(entries, batchSize, 0, [])
  }

  /** The entries the loop keeps, in order. */
  function Kept(entries: seq<PastEventEntry>): (r: seq<PastEventEntry>)
    ensures forall i :: 0 <= i < |r| ==> !Skipped(r[i].0) && r[i] in entries
  {
    if |entries| == 0 then []
    else (if Skipped(entries[0].0) then [] else [entries[0]]) + Kept(entries[1..])
  }

  function Concat<T>(bs: seq<seq<T>>): seq<T> {
    if |bs| == 0 then [] else bs[0] + Concat(bs[1..])
  }

  lemma KeptCons(entries: seq<PastEventEntry>, k: nat)
    requires k < |entries|
    ensures Kept(entries[k..]) == (if Skipped(entries[k].0) then [] else [entries[k]]) + Kept(entries[k + 1..])
  {
    assert entries[k..][1..] == entries[k + 1..];
  }

  /** Every kept entry is submitted once, in order, and nothing else is. */
  lemma {:induction false} BatchesCoverFrom(entries: seq<PastEventEntry>, batchSize: int, k: nat, batch: seq<PastEventEntry>)
    requires k <= |entries| && (k < |entries| || batch == [])
    ensures Concat(BatchesFrom(entries, batchSize, k, batch)) == batch + Kept(entries[k..])
    decreases |entries| - k
  {
    if k < |entries| {
      KeptCons(entries, k);
      var b := if Skipped(entries[k].0) then batch else batch + [entries[k]];
      if |b| == batchSize || (k == |entries| - 1 && |b| > 0) {
        BatchesCoverFrom(entries, batchSize, k + 1, []);
        var rest := BatchesFrom(entries, batchSize, k + 1, []);
        assert ([b] + rest)[1..] == rest;
      } else {
        if k + 1 == |entries| {
          assert b == [];
        }
        BatchesCoverFrom(entries, batchSize, k + 1, b);
      }
    } else {
      assert entries[k..] == [];
    }
  }

  lemma BatchesCover(entries: seq<PastEventEntry>, batchSize: int)
    ensures Concat(PastEventBatches(entries, batchSize)) == Kept(entries)
  {
    BatchesCoverFrom(entries, batchSize, 0, []);
    assert entries[0..] == entries;
  }

  /** With a positive batch size every submitted batch holds between one and batchSize entries. */
  lemma {:induction false} BatchesBoundedFrom(entries: seq<PastEventEntry>, batchSize: int, k: nat, batch: seq<PastEventEntry>)
    requires batchSize >= 1 && |batch| < batchSize
    ensures forall i :: 0 <= i < |BatchesFrom(entries, batchSize, k, batch)| ==>
              1 <= |BatchesFrom(entries, batchSize, k, batch)[i]| <= batchSize
    decreases |entries| - k
  {
    if k < |entries| {
      var b := if Skipped(entries[k].0) then batch else batch + [entries[k]];
      if |b| == batchSize || (k == |entries| - 1 && |b| > 0) {
        BatchesBoundedFrom(entries, batchSize, k + 1, []);
      } else {
        BatchesBoundedFrom(entries, batchSize, k + 1, b);
      }
    }
  }

  lemma BatchesBounded(entries: seq<PastEventEntry>, batchSize: int)
    requires batchSize >= 1
    ensures forall i :: 0 <= i < |PastEventBatches(entries, batchSize)| ==> 1 <= |PastEventBatches(entries, batchSize)[i]| <= batchSize
  {
    BatchesBoundedFrom(entries, batchSize, 0, []);
  }

  /** When no entry is skipped, every batch but the last is full; with the coverage lemma this fixes
      the batch sizes (2500 entries in batches of 1000 give 1000, 1000 and 500). */
  lemma {:induction false} FullBatchesFrom(entries: seq<PastEventEntry>, batchSize: int, k: nat, batch: seq<PastEventEntry>)
    requires batchSize >= 1 && |batch| < batchSize && k <= |entries|
    requires forall i :: k <= i < |entries| ==> !Skipped(entries[i].0)
    ensures forall i :: 0 <= i < |BatchesFrom(entries, batchSize, k, batch)| - 1 ==>
              |BatchesFrom(entries, batchSize, k, batch)[i]| == batchSize
    decreases |entries| - k
  {
    if k < |entries| {
      var b := batch + [entries[k]];
      if |b| == batchSize || k == |entries| - 1 {
        var rest := BatchesFrom(entries, batchSize, k + 1, []);
        FullBatchesFrom(entries, batchSize, k + 1, []);
        assert forall i :: 0 <= i < |rest| - 1 ==> |rest[i]| == batchSize;
        assert BatchesFrom(entries, batchSize, k, batch) == [b] + rest;
        if k == |entries| - 1 {
          assert rest == [];
        } else {
          assert |b| == batchSize;
          assert forall i :: 0 <= i < |rest| - 1 ==> |rest[i]| == batchSize;
          forall i | 0 <= i < |[b] + rest| - 1 ensures |([b] + rest)[i]| == batchSize {
            if i > 0 { assert ([b] + rest)[i] == rest[i - 1]; }
          }
        }
      } else {
        assert BatchesFrom(entries, batchSize, k, batch) == BatchesFrom(entries, batchSize, k + 1, b);
        FullBatchesFrom(entries, batchSize, k + 1, b);
      }
    }
  }

  /** The number of profiles the loop reports: the total size of the batches whose update did not
      throw. */
  function SubmittedCount(batches: seq<seq<PastEventEntry>>, throws: seq<PastEventEntry> -> bool): int {
    if |batches| == 0 then 0
    else SubmittedCount(batches[..|batches| - 1], throws) +
         (if throws(batches[|batches| - 1]) then 0 else |batches[|batches| - 1]|)
  }

  /** The store after a past-event property update of the entries of one batch that did not fail:
      pastEvents[key] set to the count and lastUpdated stamped; ids the store does not hold are not
      created. */
  function ApplyPastEvents(store: map<string, Profile>, batch: seq<PastEventEntry>, failed: set<string>,
                           propertyKey: string, now: int): (r: map<string, Profile>)
    ensures r.Keys == store.Keys
  {
    if |batch| == 0 then store
    else
      var last := batch[|batch| - 1];
      var s := ApplyPastEvents(store, batch[..|batch| - 1], failed, propertyKey, now);
      if last.0 in s && last.0 !in failed then
        var p := s[last.0];
        s[last.0 := p.(systemProperties := p.systemProperties.(
                         pastEvents := p.systemProperties.pastEvents[propertyKey := last.1],
                         lastUpdated := Some(now)))]
      else s
  }

  /** A past-event update writes no segment membership. */
  lemma {:induction false} PastEventsKeepMemberships(store: map<string, Profile>, batch: seq<PastEventEntry>, failed: set<string>,
                                                    propertyKey: string, now: int)
    ensures SameSegments(store, ApplyPastEvents(store, batch, failed, propertyKey, now))
  {
    if |batch| > 0 {
      PastEventsKeepMemberships(store, batch[..|batch| - 1], failed, propertyKey, now);
    }
  }

  /** Two stores with the same profiles, each in the same segments. */
  predicate SameSegments(before: map<string, Profile>, after: map<string, Profile>) {
    before.Keys == after.Keys && forall k :: k in before ==> after[k].segments == before[k].segments
  }

  // ---------------------------------------------------------------------------------------------
  // updateExistingProfilesForScoring: the script array layout.

  /** One script slot: slot 0 resets the score to the modifier or drops it; the other slots add an
      element's value to the profiles matching the element's condition. */
  datatype ScriptStep =
    | ResetScore(scoringId: string, condition: Condition)
    | AddScore(scoringId: string, value: Int32, condition: Condition)
    | RemoveScore(scoringId: string, condition: Condition)

  /** The profiles that hold a score for the scoring: "scores.<id>" exists. */
  function ScoreExistsQuery(scoringId: string): Condition {
    Condition(ProfilePropertyCondition, {}, [(PropertyNameParam, StrValue("scores." + scoringId)),
                                             (ComparisonOperatorParam, StrValue("exists"))])
  }
}
