# Segment service of Apache Unomi, modelled in Dafny

This project models the segment and scoring maintenance engine of Apache Unomi's
`SegmentServiceImpl`. The engine keeps profiles, auto-generated rules and definitions consistent
when a segment or a scoring is saved or removed. The model covers five parts of it.

- **Deletion impact.** It decides whether a condition tree refers to a segment or scoring that is
  about to be deleted, and finds the cached definitions that depend on it.
- **Dependent rewrite.** It rewrites a condition tree so that the reference is gone. Children that
  come back null are dropped, a `booleanCondition` with one survivor collapses to that survivor,
  and only the first occurrence of a segment id is removed from a `segments` list.
- **Removal.** `removeSegmentDefinition` and `removeScoringDefinition` check the validate gate,
  update the profiles, rewrite and re-save every dependent (disabling the ones left empty), remove
  the definition and clear its linked rules.
- **Auto-generated rules.** The walk of a condition finds every event-condition trigger and stamps
  its parent with a `generatedPropertyKey`. The key is `eventTriggered` followed by the
  lower-case hex of an MD5 digest. New rules start a past-event backfill of the profiles. Each
  rule's `linkedItems` list is maintained when definitions change.
- **Profile updates.** Segment membership is added or removed in scrolled pages. This happens
  either one profile at a time or as a multi-profile update followed by a per-profile retry. The
  past-event counts are written in capped batches or over aggregation partitions.
- **Classification.** A profile is classified against the cached definitions: its segments and
  its scores, with Java `int` wrap-around.

The service is the class `Service.SegmentService`. Its fields are:

- the two cached lists, `allSegments` and `allScoring`;
- the persisted segments, scorings, rules and profiles, kept as maps by id;
- the `profileUpdated` events sent;
- the script arrays handed to the store.

Each operation that changes the service is a method. Its `ensures` ties the new state to a
specification function of the old state, and lemmas prove what the implementation promises about
those functions.

The pure parts are separate modules:

- `Conditions` and `Lists`: the tree and `java.util.List` helpers;
- `Impact`: the deletion checks;
- `Rewrite`: the dependent rewrite, as in-place methods proved equal to the function `Rewrite`;
- `Classification`;
- `RuleKeys`: the property key and MD5 hex formatting;
- `AutoRules`: the trigger walk and the linked-item bookkeeping;
- `Bulk`: the membership map, the profile queries, partitions and past-event batches.

The model leaves the following uninterpreted. Each is a parameter of the service (`External`):

- the store's matcher (`testMatch`) and its condition validation;
- the JSON serializer and the MD5 digest;
- the event aggregations and the cardinality metric;
- which store updates fail.

The clock is a `now` parameter.

When the retry policy runs out of attempts for a profile, Failsafe's `run` throws. The exception
leaves `batchUpdateProfilesSegment` and every caller above it, so the model returns
`Err(RetriesExhausted(id))` there and each caller passes it on.

Two behaviours of the rewrite are kept as written, and each is shown by a lemma:

- a segment list naming the deleted segment twice still names it once after the rewrite
  (`Rewrite.DuplicateReferenceSurvives`);
- the rewrite does not descend into a non-boolean node that holds `subConditions`, although the
  impact check does (`Rewrite.NonBooleanContainerUnchanged`).

In the code, `toDate` overwrites the `fromDate` slot of the key input. The lemma
`RuleKeys.FromDateToDateCollide` shows that this makes two different parents produce the same
key.

## Model

| member | source | states |
|---|---|---|
| Lists.RemoveFirst | services/src/main/java/org/apache/unomi/services/impl/segments/SegmentServiceImpl.java:334 | `List.remove(Object)`: the list is unchanged when x is absent, and one shorter when x is present |
| Lists.RemoveFirstCutsFirst | services/src/main/java/org/apache/unomi/services/impl/segments/SegmentServiceImpl.java:334 | when x is present, what is cut out is its first occurrence: the result is the elements before that position followed by those after it, in order |
| Lists.RemoveFirstMultiset | services/src/main/java/org/apache/unomi/services/impl/segments/SegmentServiceImpl.java:334 | as a multiset the result is the input with one x taken out, and unchanged when x is absent |
| Lists.FirstIndexFirst | services/src/main/java/org/apache/unomi/services/impl/segments/SegmentServiceImpl.java:334 | the position `List.remove` cuts at holds x and no earlier position does |
| Lists.RemoveFirstCounts | services/src/main/java/org/apache/unomi/services/impl/segments/SegmentServiceImpl.java:334 | other elements keep their number of occurrences, and x stays in the list exactly when it occurred more than once |
| Impact.CheckSegmentDeletionImpact | services/src/main/java/org/apache/unomi/services/impl/segments/SegmentServiceImpl.java:278-298 | true iff the condition is non-null and some node reached through `subConditions` lists, and holding none itself, is a `profileSegmentCondition` whose `segments` contain the id; a null condition is never impacted |
| Impact.CheckScoringDeletionImpact | services/src/main/java/org/apache/unomi/services/impl/segments/SegmentServiceImpl.java:599-616 | true iff the condition is non-null and some reachable leaf is a `scoringCondition` whose `scoringPlanId` equals the id |
| Impact.ReachesIffLeaf | services/src/main/java/org/apache/unomi/services/impl/segments/SegmentServiceImpl.java:282-287 | the early-return loop over sub-conditions is true exactly when some reachable leaf passes the leaf test |
| Rewrite.UpdateSegmentDependentCondition | services/src/main/java/org/apache/unomi/services/impl/segments/SegmentServiceImpl.java:309-343 | the recursive in-place rewrite returns the reference rewrite `Rewrite(c, SegmentTarget(id))` whose properties the lemmas below prove |
| Rewrite.UpdateSegmentSubConditions | services/src/main/java/org/apache/unomi/services/impl/segments/SegmentServiceImpl.java:312-319 | the loop collects, in order, the non-null rewrites of the boolean node's sub-conditions |
| Rewrite.UpdateScoringDependentCondition | services/src/main/java/org/apache/unomi/services/impl/segments/SegmentServiceImpl.java:627-653 | the scoring rewrite returns `Rewrite(c, ScoringTarget(id))` |
| Rewrite.UpdateScoringSubConditions | services/src/main/java/org/apache/unomi/services/impl/segments/SegmentServiceImpl.java:630-637 | the loop collects the non-null rewrites of the sub-conditions, in order |
| Rewrite.ImpactedIffLeaf | services/src/main/java/org/apache/unomi/services/impl/segments/SegmentServiceImpl.java:278-298 | the impact check agrees with "some reachable leaf names the target", for segments and scorings alike |
| Lists.SomesFrom | services/src/main/java/org/apache/unomi/services/impl/segments/SegmentServiceImpl.java:314-319 | every sub-condition the loop keeps is a non-null rewrite of one of the originals |
| Rewrite.SurvivorOrigin | services/src/main/java/org/apache/unomi/services/impl/segments/SegmentServiceImpl.java:314-319 | every surviving sub-condition is the rewrite of one of the original sub-conditions |
| Rewrite.BooleanRewriteNull | services/src/main/java/org/apache/unomi/services/impl/segments/SegmentServiceImpl.java:320-329 | a boolean node rewrites to null iff every one of its sub-conditions rewrites to null |
| Rewrite.BooleanRewriteSingle | services/src/main/java/org/apache/unomi/services/impl/segments/SegmentServiceImpl.java:321-322 | when exactly one sub-condition survives, the boolean node is replaced by that survivor's rewrite |
| Rewrite.BooleanRewriteMany | services/src/main/java/org/apache/unomi/services/impl/segments/SegmentServiceImpl.java:323-325 | with two or more survivors the node stays a `booleanCondition` whose `subConditions` are the survivors in order, with every other parameter kept |
| Rewrite.SegmentReferenceRewrite | services/src/main/java/org/apache/unomi/services/impl/segments/SegmentServiceImpl.java:330-340 | a `profileSegmentCondition` naming the id becomes null iff the id was its only entry; otherwise it keeps its type, its segment list loses the first occurrence of the id with the rest in order (`RemoveFirst`), and its other parameters are unchanged |
| Rewrite.ScoringReferenceRewrite | services/src/main/java/org/apache/unomi/services/impl/segments/SegmentServiceImpl.java:648-650 | a `scoringCondition` on the scoring id rewrites to null |
| Rewrite.OtherNodeRewrite | services/src/main/java/org/apache/unomi/services/impl/segments/SegmentServiceImpl.java:342 | any non-boolean node that does not refer to the target is returned unchanged |
| Rewrite.RewriteRemovesReference | services/src/main/java/org/apache/unomi/services/impl/segments/SegmentServiceImpl.java:300-308 | on trees whose containers are boolean nodes and whose segment lists name the id at most once, the impact check is false on the rewrite's result |
| Rewrite.RewriteCollapsed | services/src/main/java/org/apache/unomi/services/impl/segments/SegmentServiceImpl.java:300-308 | the rewrite never leaves a boolean node with fewer than two sub-conditions on its boolean spine |
| Rewrite.DuplicateReferenceSurvives | services/src/main/java/org/apache/unomi/services/impl/segments/SegmentServiceImpl.java:333-334 | a segment list `[id, id]` is impacted and its rewrite is still impacted, since only the first occurrence is removed |
| Rewrite.NonBooleanContainerUnchanged | services/src/main/java/org/apache/unomi/services/impl/segments/SegmentServiceImpl.java:310 | a non-boolean node with a `subConditions` list holding a reference is impacted, yet the rewrite returns it unchanged |
| Classification.SegmentsAndScoresForProfile | services/src/main/java/org/apache/unomi/services/impl/segments/SegmentServiceImpl.java:484-514 | the segment set is exactly the ids of enabled cached segments whose condition matches; the scores map is the reference fold `ScoresFor`, accumulated with per-addition `int` wrap-around |
| Classification.ScoresForKeys | services/src/main/java/org/apache/unomi/services/impl/segments/SegmentServiceImpl.java:497-510 | the scores map has a key exactly for the ids of enabled scorings |
| Classification.ScoresForValue | services/src/main/java/org/apache/unomi/services/impl/segments/SegmentServiceImpl.java:499-509 | an id's score is that of the last enabled scoring carrying it: the matched weights plus the non-null `scoreModifiers` entry, as a Java `int` |
| Classification.ScoreExample | services/src/main/java/org/apache/unomi/services/impl/segments/SegmentServiceImpl.java:500-504 | two matching elements worth 5 and 2 with no modifier score 7 |
| Classification.ScoreWraps | services/src/main/java/org/apache/unomi/services/impl/segments/SegmentServiceImpl.java:506-508 | a weight of 2^31 - 1 plus a modifier of 1 scores -2^31 |
| Classification.Wrap32 | services/src/main/java/org/apache/unomi/services/impl/segments/SegmentServiceImpl.java:502 | the Java `int` result agrees with the exact value whenever that fits, and is always congruent to it modulo 2^32 |
| Classification.IsProfileInSegment | services/src/main/java/org/apache/unomi/services/impl/segments/SegmentServiceImpl.java:478-482 | true iff some enabled cached segment with the id matches the profile |
| Classification.SegmentMetadatasForProfile | services/src/main/java/org/apache/unomi/services/impl/segments/SegmentServiceImpl.java:516-527 | the loop returns `MatchingMetadata` of the cache: one entry per enabled matching cached segment, in cache order; so it holds exactly the metadata of those segments and is no longer than the cache |
| Classification.MatchingMetadata | services/src/main/java/org/apache/unomi/services/impl/segments/SegmentServiceImpl.java:516-527 | a metadata is listed iff some enabled cached segment matching the profile carries it, and the list is no longer than the cache |
| Classification.MatchingMetadataKeepsDuplicates | services/src/main/java/org/apache/unomi/services/impl/segments/SegmentServiceImpl.java:516-527 | the list has one entry per matching segment in cache order: of a matching, a non-matching and the first segment again, the first's metadata is listed twice |
| RuleKeys.GetMD5 | services/src/main/java/org/apache/unomi/services/impl/segments/SegmentServiceImpl.java:926-938 | the result is the two-digit lower-case hex encoding of the digest bytes, byte by byte |
| RuleKeys.ByteHex | services/src/main/java/org/apache/unomi/services/impl/segments/SegmentServiceImpl.java:932 | `toHexString((b & 0xFF) \| 0x100).substring(1, 3)` is the high then the low hex digit of the unsigned byte |
| RuleKeys.WidenedDigits | services/src/main/java/org/apache/unomi/services/impl/segments/SegmentServiceImpl.java:932 | the widened byte always prints as three digits, the first of them `1`, so the substring is well defined |
| RuleKeys.HexRoundTrip | services/src/main/java/org/apache/unomi/services/impl/segments/SegmentServiceImpl.java:931-934 | decoding the hex string gives back the unsigned digest bytes |
| RuleKeys.HexEncodeInjective | services/src/main/java/org/apache/unomi/services/impl/segments/SegmentServiceImpl.java:931-934 | different digests never produce the same hex string |
| RuleKeys.GeneratedPropertyKey | services/src/main/java/org/apache/unomi/services/impl/segments/SegmentServiceImpl.java:870-891 | a null parent throws; otherwise a key is produced exactly when the key input serializes, and no key (null) when serialization fails |
| RuleKeys.KeyInputFor | services/src/main/java/org/apache/unomi/services/impl/segments/SegmentServiceImpl.java:872-883 | the key input holds the condition and `numberOfDays`, and its `fromDate` slot holds `toDate` when present, else `fromDate` |
| RuleKeys.KeyShape | services/src/main/java/org/apache/unomi/services/impl/segments/SegmentServiceImpl.java:886 | a key is `eventTriggered` followed by two hex digits per digest byte |
| RuleKeys.KeyDeterminesInput | services/src/main/java/org/apache/unomi/services/impl/segments/SegmentServiceImpl.java:885-886 | with an injective serializer and digest, equal keys come from equal key inputs |
| RuleKeys.FromDateToDateCollide | services/src/main/java/org/apache/unomi/services/impl/segments/SegmentServiceImpl.java:876-883 | a parent with `fromDate` d and one with `toDate` d get the same key |
| RuleKeys.FromDateIgnoredWithToDate | services/src/main/java/org/apache/unomi/services/impl/segments/SegmentServiceImpl.java:880-883 | once `toDate` is present, `fromDate` has no influence on the key |
| AutoRules.GetAutoGeneratedRules | services/src/main/java/org/apache/unomi/services/impl/segments/SegmentServiceImpl.java:767-806 | the recursive walk, with its loops over parameters and collections, returns the reference walk `WalkNode` whose properties the lemmas below prove |
| AutoRules.WalkElements | services/src/main/java/org/apache/unomi/services/impl/segments/SegmentServiceImpl.java:797-803 | the loop over a collection parameter walks each condition in it, in order, against the parent |
| AutoRules.RootWalkFailsIffTrigger | services/src/main/java/org/apache/unomi/services/impl/segments/SegmentServiceImpl.java:769-772 | the walk from the root throws exactly when the root is itself a trigger, since its parent is null |
| AutoRules.WalkNodeFacts | services/src/main/java/org/apache/unomi/services/impl/segments/SegmentServiceImpl.java:767-806 | under a parent the walk never throws and keeps a parent; every rule it derives is keyed by a generated key, and every backfill runs under a stamped parent |
| AutoRules.TriggerStepFacts | services/src/main/java/org/apache/unomi/services/impl/segments/SegmentServiceImpl.java:769-791 | the trigger case alone: it succeeds under a parent and derives well-keyed rules and stamped backfills |
| AutoRules.TriggerStampsParent | services/src/main/java/org/apache/unomi/services/impl/segments/SegmentServiceImpl.java:770-790 | a serializable trigger stamps the parent's `generatedPropertyKey` (changing no other parameter) and derives one rule under that key; it requests a backfill exactly when no rule with the key existed |
| AutoRules.UnserializableTriggerSkipped | services/src/main/java/org/apache/unomi/services/impl/segments/SegmentServiceImpl.java:771 | a trigger whose key cannot be built derives nothing and leaves the parent alone |
| AutoRules.WalkTriggerFree | services/src/main/java/org/apache/unomi/services/impl/segments/SegmentServiceImpl.java:792-805 | a tree without triggers walks to itself with no rules and no backfills |
| AutoRules.RelinkSurvivesClear | services/src/main/java/org/apache/unomi/services/impl/segments/SegmentServiceImpl.java:788 | a rule already linked to the item and relinked again still names it after one clear, since `linkedItems` is a list |
| AutoRules.ClearOneCases | services/src/main/java/org/apache/unomi/services/impl/segments/SegmentServiceImpl.java:756-764 | one cleared rule is removed from the store iff its shrunk list is empty; otherwise the stored rule is updated with the shrunk list |
| AutoRules.ClearedRulesAt | services/src/main/java/org/apache/unomi/services/impl/segments/SegmentServiceImpl.java:755-765 | after clearing a list of rules with distinct ids, a loaded rule is present iff its list minus one occurrence of the item is non-empty, with that list; an unloaded rule is untouched |
| AutoRules.SavedRules | services/src/main/java/org/apache/unomi/services/impl/segments/SegmentServiceImpl.java:748-750 | saving the derived rules keys the store by their ids: a key is present iff it was stored or derived |
| AutoRules.SavedRulesLast | services/src/main/java/org/apache/unomi/services/impl/segments/SegmentServiceImpl.java:748-750 | the stored rule for an id is the last derived rule with that id |
| AutoRules.NotRederived | services/src/main/java/org/apache/unomi/services/impl/segments/SegmentServiceImpl.java:751 | `removeAll` keeps exactly the previously linked rules whose id was not derived again |
| AutoRules.UpdateRulesMatches | services/src/main/java/org/apache/unomi/services/impl/segments/SegmentServiceImpl.java:742-753 | saving the derived rules and then clearing the item from the previously linked rules that were not derived equals the key-by-key specification `RuleUpdate` |
| AutoRules.UpdateRulesMatchesAt | services/src/main/java/org/apache/unomi/services/impl/segments/SegmentServiceImpl.java:742-753 | the same agreement, for one key |
| AutoRules.SavedRulesFrom | services/src/main/java/org/apache/unomi/services/impl/segments/SegmentServiceImpl.java:748-750 | every rule in the store after the save is the stored one or one of the derived rules |
| AutoRules.RuleUpdateLinkedAtMost | services/src/main/java/org/apache/unomi/services/impl/segments/SegmentServiceImpl.java:742-753 | when no stored rule and no derived rule links an item more than n times, no rule after the update does |
| AutoRules.ClearUnlinks | services/src/main/java/org/apache/unomi/services/impl/segments/SegmentServiceImpl.java:755-762 | clearing an item that every rule linked at most once leaves no rule linking it |
| AutoRules.DraftsLinkedAtMost | services/src/main/java/org/apache/unomi/services/impl/segments/SegmentServiceImpl.java:767-806 | the rules the walk derives for one definition link any other item no more often than the stored rules did |
| AutoRules.Settle | services/src/main/java/org/apache/unomi/services/impl/segments/SegmentServiceImpl.java:780 | rules whose action waits for the parent get the final parent; their metadata and links are kept |
| Bulk.BuildPropertiesMapForUpdateSegment | services/src/main/java/org/apache/unomi/services/impl/segments/SegmentServiceImpl.java:1050-1061 | with add the id is in `segments`, with remove it is absent; every other membership, the scores and past events are kept, `lastUpdated` is set, and the map carries the new segments and system properties |
| Bulk.SourceMatchesProfile | services/src/main/java/org/apache/unomi/services/impl/segments/SegmentServiceImpl.java:1056-1059 | writing the returned map onto the profile gives the profile the method built |
| Bulk.BuildIdempotent | services/src/main/java/org/apache/unomi/services/impl/segments/SegmentServiceImpl.java:1050-1061 | applying the same update twice gives the same profile as applying it once, which is why a retry may rebuild it |
| Bulk.AddThenRemove | services/src/main/java/org/apache/unomi/services/impl/segments/SegmentServiceImpl.java:1050-1055 | adding and then removing the id leaves the original memberships without it |
| Bulk.SegmentPassesAgree | services/src/main/java/org/apache/unomi/services/impl/segments/SegmentServiceImpl.java:956-975 | with a matcher that reads `and`/`not`/membership as named, the add pass then the remove pass leave the profile in the segment iff it matches, with other memberships kept |
| Bulk.PastEventConjuncts | services/src/main/java/org/apache/unomi/services/impl/segments/SegmentServiceImpl.java:816-845 | the past-event query is the event condition, then one conjunct for each of `numberOfDays`, `fromDate` and `toDate` when present |
| Bulk.PartitionCount | services/src/main/java/org/apache/unomi/services/impl/segments/SegmentServiceImpl.java:855-856 | the partition count throws exactly when the bucket size is zero |
| Bulk.PartitionsCover | services/src/main/java/org/apache/unomi/services/impl/segments/SegmentServiceImpl.java:856 | without overflow there are `card / bucketSize + 2` partitions, at least two, and they span more than the cardinality |
| Bulk.PartitionExample | services/src/main/java/org/apache/unomi/services/impl/segments/SegmentServiceImpl.java:856 | a cardinality of 12000 with buckets of 5000 gives 4 partitions |
| Bulk.PartitionWraps | services/src/main/java/org/apache/unomi/services/impl/segments/SegmentServiceImpl.java:856 | the `(int)` cast wraps: a cardinality of 2^31 with bucket 1 gives a negative count, so the loop runs no partition |
| Bulk.BatchesCover | services/src/main/java/org/apache/unomi/services/impl/segments/SegmentServiceImpl.java:896-922 | the batches, concatenated, are exactly the entries whose id does not start with `_`, in order |
| Bulk.BatchesBounded | services/src/main/java/org/apache/unomi/services/impl/segments/SegmentServiceImpl.java:912 | with a positive batch size every submitted batch has between 1 and `segmentUpdateBatchSize` entries |
| Bulk.FullBatchesFrom | services/src/main/java/org/apache/unomi/services/impl/segments/SegmentServiceImpl.java:912 | with no skipped ids, every batch but the last is full |
| Bulk.PastEventsKeepMemberships | services/src/main/java/org/apache/unomi/services/impl/segments/SegmentServiceImpl.java:900-915 | a past-event batch keeps the profile ids and never changes a segment membership |
| Service.SegmentService.constructor | services/src/main/java/org/apache/unomi/services/impl/segments/SegmentServiceImpl.java:74-87 | the service starts with empty caches and stores, with the given tunables and collaborators |
| Service.SegmentService.LandsOrExhausts | services/src/main/java/org/apache/unomi/services/impl/segments/SegmentServiceImpl.java:1015-1036 | a profile update either lands or exhausts its retries, never both; exhaustion needs batch mode and positive retries |
| Service.SegmentService.QueryProfiles | services/src/main/java/org/apache/unomi/services/impl/segments/SegmentServiceImpl.java:984 | the query lists every profile the matcher selects, once each |
| Service.SegmentService.RetryFailedSegmentUpdate | services/src/main/java/org/apache/unomi/services/impl/segments/SegmentServiceImpl.java:1020-1036 | with retries off nothing happens; otherwise there are 1 to maxRetries + 1 attempts, each but the last failing; it succeeds iff the profile exists and some attempt succeeds, writing the rebuilt profile; on exhaustion it throws and writes nothing |
| Service.SegmentService.BulkUpdate | services/src/main/java/org/apache/unomi/services/impl/segments/SegmentServiceImpl.java:1010-1015 | the multi-profile update writes every page profile the store does not report, and the failed list is exactly the reported ones |
| Service.SegmentService.Retried | services/src/main/java/org/apache/unomi/services/impl/segments/SegmentServiceImpl.java:1016-1017 | retrying the failed ids keeps the store's key set |
| Service.SegmentService.RetriedSnoc | services/src/main/java/org/apache/unomi/services/impl/segments/SegmentServiceImpl.java:1017 | one more retried id changes that profile alone, and only when its retry lands |
| Service.SegmentService.RetriedIsPass | services/src/main/java/org/apache/unomi/services/impl/segments/SegmentServiceImpl.java:1009-1018 | the multi-profile update followed by the retries of its failures is one pass over the page |
| Service.SegmentService.RetryEach | services/src/main/java/org/apache/unomi/services/impl/segments/SegmentServiceImpl.java:1016-1017 | the retry loop succeeds iff no failed id exhausts its retries; a failure names a failed id that exhausted; on success the store is `Retried` of the failed ids in order, and the key set is kept either way |
| Service.SegmentService.BatchUpdateProfilesSegment | services/src/main/java/org/apache/unomi/services/impl/segments/SegmentServiceImpl.java:1009-1018 | it succeeds iff no page profile exhausts its retries; on success the store is the pass over the page; a failure names a page profile that exhausted |
| Service.SegmentService.UpdateOneByOne | services/src/main/java/org/apache/unomi/services/impl/segments/SegmentServiceImpl.java:991-996 | updating the page one profile at a time is the pass over the page |
| Service.SegmentService.PassCompose | services/src/main/java/org/apache/unomi/services/impl/segments/SegmentServiceImpl.java:986-1004 | passes over disjoint pages compose into the pass over their union |
| Service.SegmentService.PassTouchesOnlySegment | services/src/main/java/org/apache/unomi/services/impl/segments/SegmentServiceImpl.java:1050-1061 | a pass changes only the segment's membership and `lastUpdated`, for landed profiles alone |
| Service.SegmentService.UpdatePage | services/src/main/java/org/apache/unomi/services/impl/segments/SegmentServiceImpl.java:988-998 | one page is updated in batch or one by one and then announced once per profile; on success the store is the pass over the page |
| Service.SegmentService.UpdateNextPage | services/src/main/java/org/apache/unomi/services/impl/segments/SegmentServiceImpl.java:986-1003 | one turn of the scroll loop extends the pass and the events from the pages before to the next page |
| Service.SegmentService.UpdatePages | services/src/main/java/org/apache/unomi/services/impl/segments/SegmentServiceImpl.java:986-1004 | the scroll over the selection succeeds iff no selected profile exhausts; the store is then the pass over all of it, with one event per profile in scroll order |
| Service.SegmentService.UpdateProfilesSegment | services/src/main/java/org/apache/unomi/services/impl/segments/SegmentServiceImpl.java:982-1007 | it throws iff paging is on and a selected profile exhausts; on success the store is the pass over the query's profiles and the count is their number (zero with no positive page size) |
| Service.SegmentService.UpdateExistingProfilesForSegment | services/src/main/java/org/apache/unomi/services/impl/segments/SegmentServiceImpl.java:940-980 | an enabled segment gets its add pass then its remove pass, and a disabled one a remove pass over its members; it cannot fail without batch mode and retries |
| Service.SegmentService.AddAndRemovePasses | services/src/main/java/org/apache/unomi/services/impl/segments/SegmentServiceImpl.java:951-975 | the two passes of an enabled segment, in order, each over the store the previous left |
| Service.SegmentService.SegmentPassesSettle | services/src/main/java/org/apache/unomi/services/impl/segments/SegmentServiceImpl.java:951-975 | when updates land and the query shapes mean what they say, a profile ends in the segment iff it matches the condition, and its other memberships stay |
| Service.SegmentService.SegmentSettledKeeps | services/src/main/java/org/apache/unomi/services/impl/segments/SegmentServiceImpl.java:940-980 | the passes of one segment change no other segment's membership |
| Service.SegmentService.UpdateProfilesWithPastEventProperty | services/src/main/java/org/apache/unomi/services/impl/segments/SegmentServiceImpl.java:893-924 | the batches are those of `PastEventBatches` (skip `_` ids, cap at the batch size); the store has each non-throwing batch applied, and the count is the size of those batches |
| Service.SegmentService.PastEventResult | services/src/main/java/org/apache/unomi/services/impl/segments/SegmentServiceImpl.java:808-868 | the backfill throws iff partitions are on with a zero bucket size, and when it does not throw it changes no segment membership |
| Service.SegmentService.UpdateExistingProfilesForPastEventCondition | services/src/main/java/org/apache/unomi/services/impl/segments/SegmentServiceImpl.java:808-868 | the backfill's store and count are `PastEventResult`'s; when it throws it writes nothing |
| Service.SegmentService.UpdatePartitions | services/src/main/java/org/apache/unomi/services/impl/segments/SegmentServiceImpl.java:857-860 | the partitions 0 to n - 1 are updated in turn (none when n is not positive) and their counts summed |
| Service.SegmentService.PastEventsKeepSegments | services/src/main/java/org/apache/unomi/services/impl/segments/SegmentServiceImpl.java:850-852 | the batches of one aggregation change no segment membership |
| Service.SegmentService.PartitionsKeepSegments | services/src/main/java/org/apache/unomi/services/impl/segments/SegmentServiceImpl.java:853-860 | the partitions change no segment membership |
| Service.SegmentService.QueryLinkedRules | services/src/main/java/org/apache/unomi/services/impl/segments/SegmentServiceImpl.java:743 | the query returns exactly the stored rules linked to the item, with distinct ids |
| Service.SegmentService.ClearAutoGeneratedRules | services/src/main/java/org/apache/unomi/services/impl/segments/SegmentServiceImpl.java:755-765 | the loop leaves the rule store at `ClearedRules` (see `AutoRules.ClearedRulesAt`) and keeps it keyed by id |
| Service.SegmentService.SaveRules | services/src/main/java/org/apache/unomi/services/impl/segments/SegmentServiceImpl.java:748-750 | the loop leaves the rule store at `SavedRules` and keeps it keyed by id |
| Service.SegmentService.RunBackfills | services/src/main/java/org/apache/unomi/services/impl/segments/SegmentServiceImpl.java:786 | the backfills of the new rules run in order; the first one throws exactly when any would, and then nothing is written |
| Service.SegmentService.DeriveRules | services/src/main/java/org/apache/unomi/services/impl/segments/SegmentServiceImpl.java:744-747 | the walk from the root throws iff the root is a trigger; otherwise the backfills run, and the derived rules and stamped condition are the walk's |
| Service.SegmentService.UpdateAutoGeneratedRules | services/src/main/java/org/apache/unomi/services/impl/segments/SegmentServiceImpl.java:742-753 | a null condition just unlinks the item; otherwise a trigger root or a throwing backfill fails with the rules as they were, and success leaves the rules at `RuleUpdate` of the derived ones and the profiles with the backfills applied |
| Service.SegmentService.ElementStep | services/src/main/java/org/apache/unomi/services/impl/segments/SegmentServiceImpl.java:742-753 | one rule update, on values: it throws exactly as the walk and the backfills do, and keeps the rule store keyed and the memberships unchanged |
| Service.SegmentService.SegmentPrepared | services/src/main/java/org/apache/unomi/services/impl/segments/SegmentServiceImpl.java:263-271 | the gate and the rule derivation keep the metadata, the null-ness of the condition, the rule-store keying and every membership |
| Service.SegmentService.SegmentPreparedFails | services/src/main/java/org/apache/unomi/services/impl/segments/SegmentServiceImpl.java:263-271 | the save is refused with `BadSegmentCondition` iff an enabled segment's condition is null or invalid; otherwise it fails iff its rule derivation throws, and a disabled or plugin-less segment never does |
| Service.SegmentService.SetSegmentDefinition | services/src/main/java/org/apache/unomi/services/impl/segments/SegmentServiceImpl.java:262-276 | a refusal saves nothing; otherwise the segment is stored under its id with the rules derived, and its profile passes follow |
| Service.SegmentService.ElementsStep | services/src/main/java/org/apache/unomi/services/impl/segments/SegmentServiceImpl.java:561-566 | the rule updates of the elements, in order: they keep the number and values of the elements, the rule keying and every membership |
| Service.SegmentService.ElementsStepFailsOn | services/src/main/java/org/apache/unomi/services/impl/segments/SegmentServiceImpl.java:561-566 | once an element's rule update throws, the whole loop throws that error |
| Service.SegmentService.LaterElementUnlinksEarlier | services/src/main/java/org/apache/unomi/services/impl/segments/SegmentServiceImpl.java:561-566 | a rule created for one element and not derived by the next is deleted by that next update, because each call clears the item from what it no longer derives |
| Service.SegmentService.ScoringPrepared | services/src/main/java/org/apache/unomi/services/impl/segments/SegmentServiceImpl.java:560-567 | the rule derivation of a scoring keeps its metadata, its element count, the rule keying and every membership |
| Service.SegmentService.DeriveElementRules | services/src/main/java/org/apache/unomi/services/impl/segments/SegmentServiceImpl.java:561-566 | the element loop leaves the stores and the stamped elements at `ElementsStep`'s results, and fails exactly when it does |
| Service.SegmentService.SetScoringDefinition | services/src/main/java/org/apache/unomi/services/impl/segments/SegmentServiceImpl.java:559-585 | on success the scoring is stored under its id and its script array is issued; on failure neither happens |
| Service.SegmentService.ElementStepTriggerFree | services/src/main/java/org/apache/unomi/services/impl/segments/SegmentServiceImpl.java:742-753 | a condition without event-condition triggers derives no failure and is saved as it is |
| Service.SegmentService.ElementStepLinks | services/src/main/java/org/apache/unomi/services/impl/segments/SegmentServiceImpl.java:742-753 | a definition's rule update links any other item no more often than the store did |
| Service.SegmentService.ElementsStepLinks | services/src/main/java/org/apache/unomi/services/impl/segments/SegmentServiceImpl.java:561-566 | the element loop of a scoring links any other item no more often than the store did |
| Service.SegmentService.SegmentPreparedSaved | services/src/main/java/org/apache/unomi/services/impl/segments/SegmentServiceImpl.java:262-271 | the segment `setSegmentDefinition` saves keeps the metadata, has a condition iff the given one has, has one whenever enabled, and is the given one unless it is enabled with plugins and a condition holding triggers; a disabled segment leaves rules and profiles alone |
| Service.SegmentService.SegmentPreparedLinks | services/src/main/java/org/apache/unomi/services/impl/segments/SegmentServiceImpl.java:262-271 | saving a segment links any other item no more often than the store did |
| Service.SegmentService.ScoringPreparedSaved | services/src/main/java/org/apache/unomi/services/impl/segments/SegmentServiceImpl.java:559-567 | the scoring `setScoringDefinition` saves keeps the metadata and the number and values of the elements in order, and is the given one when disabled or missing plugins; a disabled scoring leaves rules and profiles alone |
| Service.SegmentService.ScoringPreparedLinks | services/src/main/java/org/apache/unomi/services/impl/segments/SegmentServiceImpl.java:559-567 | saving a scoring links any other item no more often than the store did |
| Service.SegmentService.UpdateExistingProfilesForScoring | services/src/main/java/org/apache/unomi/services/impl/segments/SegmentServiceImpl.java:1063-1097 | one script array is issued: the scoring's `ScoringScripts` |
| Service.ScoringScriptsLayout | services/src/main/java/org/apache/unomi/services/impl/segments/SegmentServiceImpl.java:1070-1094 | the array has one slot per element plus slot 0; slot 0 resets the score, and slots 1..n add the element values only when the scoring is enabled |
| Service.SegmentService.UpdateExistingProfilesForRemovedScoring | services/src/main/java/org/apache/unomi/services/impl/segments/SegmentServiceImpl.java:1099-1118 | one single-slot script array that removes the scoring's score is issued |
| Service.SegmentService.GetDependentSegments | services/src/main/java/org/apache/unomi/services/impl/segments/SegmentServiceImpl.java:345-353 | the loop returns the positions `SegmentDeps` of the impacted cached segments (and likewise for a scoring target, 655-663) |
| Service.SegmentService.GetDependentScorings | services/src/main/java/org/apache/unomi/services/impl/segments/SegmentServiceImpl.java:355-366 | the loop, stopping at the first impacted element, returns the positions `ScoringDeps` of the scorings with such an element (likewise 665-676) |
| Service.SegmentDepsMembers | services/src/main/java/org/apache/unomi/services/impl/segments/SegmentServiceImpl.java:345-353 | a position is listed iff it holds a cached segment whose condition is impacted |
| Service.SegmentDepsIncreasing | services/src/main/java/org/apache/unomi/services/impl/segments/SegmentServiceImpl.java:345-353 | the positions are listed in increasing cache order, each once |
| Service.ScoringDepsMembers | services/src/main/java/org/apache/unomi/services/impl/segments/SegmentServiceImpl.java:355-366 | a position is listed iff it holds a scoring with an impacted element |
| Service.ScoringDepsIncreasing | services/src/main/java/org/apache/unomi/services/impl/segments/SegmentServiceImpl.java:355-366 | the scoring positions are increasing |
| Service.SegmentService.GetDependentMetadata | services/src/main/java/org/apache/unomi/services/impl/segments/SegmentServiceImpl.java:368-378 | the report is `DependentsOf` the cache (and likewise for a scoring target, 678-688) |
| Service.DependentsOfContents | services/src/main/java/org/apache/unomi/services/impl/segments/SegmentServiceImpl.java:368-378 | the report lists exactly the metadata of the impacted segments and of the impacted scorings |
| Service.SegmentService.MetadataAt | services/src/main/java/org/apache/unomi/services/impl/segments/SegmentServiceImpl.java:440-449 | the returned lists hold the current metadata at the dependent positions, in order |
| Service.SegmentService.StripSegment | services/src/main/java/org/apache/unomi/services/impl/segments/SegmentServiceImpl.java:384-404 | every member of the segment is updated to drop it (in batch or one by one); it fails only in batch mode, when a member exhausts its retries |
| Service.SegmentService.StripClears | services/src/main/java/org/apache/unomi/services/impl/segments/SegmentServiceImpl.java:384-404 | when updates land and the membership query reads membership, no profile is left in the segment |
| Service.SegmentService.RewrittenSegment | services/src/main/java/org/apache/unomi/services/impl/segments/SegmentServiceImpl.java:409-414 | the dependent takes the rewritten condition; when that is null its linked rules are cleared and it is disabled, and otherwise the rules are untouched |
| Service.SegmentService.RewriteOneSegment | services/src/main/java/org/apache/unomi/services/impl/segments/SegmentServiceImpl.java:408-415 | one dependent is rewritten and re-saved: on success the stores are `SegmentStep` of the old ones (its rules cleared when its condition is gone, then saved as `setSegmentDefinition` saves it, the profiles settled, stored under its id) and its cache position holds the saved segment; its metadata is the rewrite's, no other position changes, and only its own membership can change |
| Service.SegmentService.RewriteSegmentAt | services/src/main/java/org/apache/unomi/services/impl/segments/SegmentServiceImpl.java:407-416 | one turn of the dependent-segment loop: the stores advance by one `SegmentStep`, so the stores are the `SegmentSteps` fold over one more dependent and that position holds its saved segment |
| Service.SegmentService.RewriteSegments | services/src/main/java/org/apache/unomi/services/impl/segments/SegmentServiceImpl.java:407-416 | on success the stores are the `SegmentSteps` fold of the old stores over the dependents in cache order, and every dependent position holds the segment the fold saved there; no other position changes, and only the dependents' memberships can change |
| Service.CacheRewriteStep | services/src/main/java/org/apache/unomi/services/impl/segments/SegmentServiceImpl.java:407-416 | rewriting the next dependent and nothing else extends the rewritten prefix of the cache |
| Service.SegmentRewriteFacts | services/src/main/java/org/apache/unomi/services/impl/segments/SegmentServiceImpl.java:409-413 | on a tree whose `subConditions` containers are all boolean nodes and whose segment lists name the id at most once (`Rewritable`), a rewritten dependent no longer refers to the deleted id; on every segment it stays enabled iff it was and a condition is left, and keeps its other metadata |
| Service.UpdateScoringElements | services/src/main/java/org/apache/unomi/services/impl/segments/SegmentServiceImpl.java:419-426 | the element loop returns `RewrittenElements`: the elements whose condition survives, with the rewritten condition, in order |
| Service.KeptElementsOrigin | services/src/main/java/org/apache/unomi/services/impl/segments/SegmentServiceImpl.java:420-426 | every kept element comes, with its value, from an original element whose condition survives |
| Service.KeptElementsKeep | services/src/main/java/org/apache/unomi/services/impl/segments/SegmentServiceImpl.java:420-426 | every element whose condition survives is kept, with the rewritten condition |
| Service.KeptElementsEmpty | services/src/main/java/org/apache/unomi/services/impl/segments/SegmentServiceImpl.java:427-431 | no element is left exactly when no element's condition survives |
| Service.ScoringRewriteFacts | services/src/main/java/org/apache/unomi/services/impl/segments/SegmentServiceImpl.java:419-432 | a rewritten dependent scoring stays enabled iff it was and some element survives; every kept element comes from an original one, with its value |
| Service.SegmentService.RewriteOneScoring | services/src/main/java/org/apache/unomi/services/impl/segments/SegmentServiceImpl.java:419-432 | one dependent scoring is rewritten and re-saved: the cached scoring is `ScoringSaved` of its rewrite (same metadata, the surviving elements' values in order); when no element is left its rules are cleared; on success the stores are `ScoringStep` of the old ones and no segment membership changes |
| Service.SegmentService.RewriteScoringAt | services/src/main/java/org/apache/unomi/services/impl/segments/SegmentServiceImpl.java:418-433 | one turn of the dependent-scoring loop: the stores advance by one `ScoringStep`, so the stores are the `ScoringSteps` fold over one more dependent and that position holds its saved scoring |
| Service.SegmentService.RewriteScorings | services/src/main/java/org/apache/unomi/services/impl/segments/SegmentServiceImpl.java:418-433 | on success the stores are the `ScoringSteps` fold of the old stores over the dependent scorings in cache order, and every dependent position holds the scoring the fold saved there; no other position changes and no segment membership changes |
| Service.SegmentService.SegmentStep | services/src/main/java/org/apache/unomi/services/impl/segments/SegmentServiceImpl.java:407-416 | one dependent segment's step on the stores saves `SegmentSaved` of its rewrite and keeps the rules keyed by id |
| Service.SegmentService.SegmentSteps | services/src/main/java/org/apache/unomi/services/impl/segments/SegmentServiceImpl.java:407-416 | the dependent-segment loop on the stores, first refused save ending it: when it goes through it saves one segment per dependent and keeps the rules keyed by id |
| Service.SegmentService.SegmentStepsSaved | services/src/main/java/org/apache/unomi/services/impl/segments/SegmentServiceImpl.java:407-416 | every segment the loop saves is, position by position, `SegmentSaved` of its dependent's rewrite, the condition null and the segment disabled when the rewrite emptied it |
| Service.SegmentService.SegmentStepsLast | services/src/main/java/org/apache/unomi/services/impl/segments/SegmentServiceImpl.java:407-416 | a loop that went through ended with a step that went through: the last saved segment is the rewrite of the last dependent and is stored under its id |
| Service.SegmentService.ScoringStep | services/src/main/java/org/apache/unomi/services/impl/segments/SegmentServiceImpl.java:418-433 | one dependent scoring's step on the stores saves `ScoringSaved` of its rewrite and keeps the rules keyed by id |
| Service.SegmentService.ScoringSteps | services/src/main/java/org/apache/unomi/services/impl/segments/SegmentServiceImpl.java:418-433 | the dependent-scoring loop on the stores, first refused save ending it: when it goes through it saves one scoring per dependent and keeps the rules keyed by id |
| Service.SegmentService.ScoringStepsSaved | services/src/main/java/org/apache/unomi/services/impl/segments/SegmentServiceImpl.java:418-433 | every scoring the loop saves is, position by position, `ScoringSaved` of its dependent's rewrite, keeping the elements whose condition survives and disabled when none does |
| Service.SegmentService.ScoringStepsLast | services/src/main/java/org/apache/unomi/services/impl/segments/SegmentServiceImpl.java:418-433 | a loop that went through ended with a step that went through: the last saved scoring is the rewrite of the last dependent and is stored under its id |
| Service.SegmentService.SegmentStepsKeep | services/src/main/java/org/apache/unomi/services/impl/segments/SegmentServiceImpl.java:407-416 | the segment loop writes only the rules, the segments and the profiles, whose ids stay |
| Service.SegmentService.SegmentStepsOther | services/src/main/java/org/apache/unomi/services/impl/segments/SegmentServiceImpl.java:407-416 | a segment whose id no dependent has is stored, or absent, as before |
| Service.SegmentService.SegmentStepsStored | services/src/main/java/org/apache/unomi/services/impl/segments/SegmentServiceImpl.java:407-416 | a saved dependent is stored under its id unless a later dependent has the same id |
| Service.SegmentService.ScoringStepsKeep | services/src/main/java/org/apache/unomi/services/impl/segments/SegmentServiceImpl.java:418-433 | the scoring loop leaves the segments and every profile's segments alone, and only appends scripts |
| Service.SegmentService.ScoringStepsOther | services/src/main/java/org/apache/unomi/services/impl/segments/SegmentServiceImpl.java:418-433 | a scoring whose id no dependent has is stored, or absent, as before |
| Service.SegmentService.ScoringStepsStored | services/src/main/java/org/apache/unomi/services/impl/segments/SegmentServiceImpl.java:418-433 | a saved dependent scoring is stored under its id unless a later dependent has the same id |
| Service.SegmentService.SegmentStepLinks | services/src/main/java/org/apache/unomi/services/impl/segments/SegmentServiceImpl.java:407-416 | one segment step links any item other than that dependent no more often than before |
| Service.SegmentService.SegmentStepsLinks | services/src/main/java/org/apache/unomi/services/impl/segments/SegmentServiceImpl.java:407-416 | the segment loop links an item no dependent has no more often than before |
| Service.SegmentService.ScoringStepLinks | services/src/main/java/org/apache/unomi/services/impl/segments/SegmentServiceImpl.java:418-433 | one scoring step links any item other than that dependent no more often than before |
| Service.SegmentService.ScoringStepsLinks | services/src/main/java/org/apache/unomi/services/impl/segments/SegmentServiceImpl.java:418-433 | the scoring loop links an item no dependent has no more often than before |
| Service.SegmentService.SegmentStepsUnlinkEmptied | services/src/main/java/org/apache/unomi/services/impl/segments/SegmentServiceImpl.java:411-414 | a dependent segment left with no condition, linked at most once by every rule and sharing its id with no other dependent, is linked by no rule after the loop |
| Service.SegmentService.ScoringStepsUnlinkEmptied | services/src/main/java/org/apache/unomi/services/impl/segments/SegmentServiceImpl.java:427-431 | a dependent scoring left with no element, linked at most once by every rule and sharing its id with no other dependent, is linked by no rule after the loop |
| Service.SegmentService.DependentsRewrittenSaved | services/src/main/java/org/apache/unomi/services/impl/segments/SegmentServiceImpl.java:407-433 | both loops keep the profile ids and only append scripts, and every saved dependent is `SegmentSaved`/`ScoringSaved` of its rewrite |
| Service.SegmentService.DependentsRewrittenSegments | services/src/main/java/org/apache/unomi/services/impl/segments/SegmentServiceImpl.java:407-433 | after both loops a dependent segment is stored as saved unless a later one has its id, and every other segment is as it was |
| Service.SegmentService.DependentsRewrittenScorings | services/src/main/java/org/apache/unomi/services/impl/segments/SegmentServiceImpl.java:407-433 | after both loops a dependent scoring is stored as saved unless a later one has its id, and every other scoring is as it was |
| Service.SegmentService.DependentsRewrittenUnlinkSegment | services/src/main/java/org/apache/unomi/services/impl/segments/SegmentServiceImpl.java:411-414 | an emptied dependent segment with an id of its own, linked at most once by every rule, is linked by no rule after both loops |
| Service.SegmentService.DependentsRewrittenUnlinkScoring | services/src/main/java/org/apache/unomi/services/impl/segments/SegmentServiceImpl.java:427-431 | an emptied dependent scoring with an id of its own, linked at most once by every rule, is linked by no rule after both loops |
| Service.SegmentService.DependentsRewrittenLinks | services/src/main/java/org/apache/unomi/services/impl/segments/SegmentServiceImpl.java:407-433 | an item that no dependent is, linked at most once by every rule, is still linked at most once after both loops |
| Service.SegmentService.SegmentRemovalSaved | services/src/main/java/org/apache/unomi/services/impl/segments/SegmentServiceImpl.java:384-437 | after a segment removal the segment is not stored, the profile ids stay, scripts are only appended, and every saved dependent is `SegmentSaved`/`ScoringSaved` of its rewrite |
| Service.SegmentService.SegmentRemovalSegments | services/src/main/java/org/apache/unomi/services/impl/segments/SegmentServiceImpl.java:407-437 | after a segment removal a dependent segment is stored as saved unless a later one has its id, and every other segment but the removed one is as it was |
| Service.SegmentService.SegmentRemovalScorings | services/src/main/java/org/apache/unomi/services/impl/segments/SegmentServiceImpl.java:418-433 | after a segment removal a dependent scoring is stored as saved unless a later one has its id, and every other scoring is as it was |
| Service.SegmentService.SegmentRemovalLinks | services/src/main/java/org/apache/unomi/services/impl/segments/SegmentServiceImpl.java:407-437 | after a segment removal no rule links the segment, when each rule linked it at most once and no dependent has its id; nor an emptied dependent linked at most once whose id is its own |
| Service.SegmentService.SegmentRemovalUnlinks | services/src/main/java/org/apache/unomi/services/impl/segments/SegmentServiceImpl.java:407-437 | with distinct dependent ids, after a segment removal no rule links the segment or an emptied dependent that each rule linked at most once |
| Service.SegmentService.ScoringRemovalSaved | services/src/main/java/org/apache/unomi/services/impl/segments/SegmentServiceImpl.java:695-728 | after a scoring removal the scoring is not stored, the reset script comes first, the profile ids stay, and every saved dependent is `SegmentSaved`/`ScoringSaved` of its rewrite |
| Service.SegmentService.ScoringRemovalSegments | services/src/main/java/org/apache/unomi/services/impl/segments/SegmentServiceImpl.java:698-706 | after a scoring removal a dependent segment is stored as saved unless a later one has its id, and every other segment is as it was |
| Service.SegmentService.ScoringRemovalScorings | services/src/main/java/org/apache/unomi/services/impl/segments/SegmentServiceImpl.java:709-726 | after a scoring removal a dependent scoring is stored as saved unless a later one has its id, and every other scoring but the removed one is as it was |
| Service.SegmentService.ScoringRemovalLinks | services/src/main/java/org/apache/unomi/services/impl/segments/SegmentServiceImpl.java:698-728 | after a scoring removal no rule links the scoring, when each rule linked it at most once and no dependent has its id; nor an emptied dependent linked at most once whose id is its own |
| Service.SegmentService.ScoringRemovalUnlinks | services/src/main/java/org/apache/unomi/services/impl/segments/SegmentServiceImpl.java:698-728 | with distinct dependent ids, after a scoring removal no rule links the scoring or an emptied dependent that each rule linked at most once |
| Service.SegmentService.RewriteDependents | services/src/main/java/org/apache/unomi/services/impl/segments/SegmentServiceImpl.java:407-433 | on success the stores are `DependentsRewritten` of the old ones (all segment steps, then all scoring steps) and the dependent positions of both caches hold the saved dependents; scripts only grow, and only the dependent segments' memberships change |
| Service.SegmentService.DropSegment | services/src/main/java/org/apache/unomi/services/impl/segments/SegmentServiceImpl.java:407-437 | on success the stores are `DependentsRewritten` of the old ones with the segment then removed and its linked rules cleared, and the dependent positions hold the saved dependents |
| Service.SegmentService.ClearLinkedRules | services/src/main/java/org/apache/unomi/services/impl/segments/SegmentServiceImpl.java:435-437 | the rules linked to the item lose it, and a rule left with no link is deleted |
| Service.SegmentService.ForgetSegment | services/src/main/java/org/apache/unomi/services/impl/segments/SegmentServiceImpl.java:436-438 | the segment leaves the segment store and the rules become those with the segment's links cleared; nothing else changes |
| Service.SegmentService.RemoveSegmentEffects | services/src/main/java/org/apache/unomi/services/impl/segments/SegmentServiceImpl.java:384-437 | on success the stores are `SegmentRemoval` of the old ones: the members leave the segment, each dependent segment and then each dependent scoring is saved in its rewritten form, the segment is removed and its linked rules cleared; the dependent cache positions hold the saved dependents; only the dependents' and the segment's memberships change, and when updates land no profile keeps the segment |
| Service.SegmentService.RemoveSegmentDefinition | services/src/main/java/org/apache/unomi/services/impl/segments/SegmentServiceImpl.java:380-450 | with validate and dependents present nothing changes and the dependents are reported; otherwise the stores become `SegmentRemoval` of the old ones, each dependent position holds `SegmentSaved`/`ScoringSaved` of its rewrite, the segment is no longer stored, and with distinct dependent ids no rule links the segment or an emptied dependent that each rule linked at most once; the report lists the dependents' metadata after the change; when updates land no profile keeps the segment |
| Service.SegmentService.ForgetScoring | services/src/main/java/org/apache/unomi/services/impl/segments/SegmentServiceImpl.java:726-728 | the scoring leaves the scoring store and the rules become those with the scoring's links cleared; nothing else changes |
| Service.SegmentService.DropScoring | services/src/main/java/org/apache/unomi/services/impl/segments/SegmentServiceImpl.java:698-728 | on success the stores are `DependentsRewritten` of the old ones with the scoring then removed and its linked rules cleared, and the dependent positions hold the saved dependents; scripts only grow, and only the dependent segments' memberships change |
| Service.SegmentService.RemoveScoringEffects | services/src/main/java/org/apache/unomi/services/impl/segments/SegmentServiceImpl.java:693-728 | the score-removal script is submitted first; on success the stores are `ScoringRemoval` of the old ones: each dependent segment and then each dependent scoring is saved in its rewritten form, the scoring is removed and its linked rules cleared; the dependent cache positions hold the saved dependents, and only the dependent segments' memberships change |
| Service.SegmentService.RemoveScoringDefinition | services/src/main/java/org/apache/unomi/services/impl/segments/SegmentServiceImpl.java:690-740 | the validate gate as for segments; otherwise the score-removal script is submitted, the stores become `ScoringRemoval` of the old ones, each dependent position holds `SegmentSaved`/`ScoringSaved` of its rewrite, the scoring is no longer stored, and with distinct dependent ids no rule links the scoring or an emptied dependent that each rule linked at most once; the dependents are reported |
| Service.KeepsMembershipTrans | services/src/main/java/org/apache/unomi/services/impl/segments/SegmentServiceImpl.java:380-450 | keeping a membership through two steps of the removal keeps it through both |
| Service.RewriteCondition | services/src/main/java/org/apache/unomi/services/impl/segments/SegmentServiceImpl.java:409 | the removal calls the segment or the scoring rewrite as its target says |

## Left out

- Bundle loading, the scheduler and its periodic refresh of the cache, the getters and paging
  queries (`getSegmentMetadatas`, `getMatchingIndividuals` and the like) and the
  `createScoringDefinition` helper. They are OSGi, clock or store plumbing around the core, and
  the cache is a field the methods read.
- Logging, timing, the retry delay, `refreshIndex` and `createMapping`. None of them changes the
  modelled state.
- The store's matcher, condition validation, and condition-type resolution. They are
  uninterpreted parameters.
- The JSON serializer and the MD5 digest. They are parameters; only the key prefix and the hex
  formatting are modelled.
- `new Date()`. It is a `now` parameter.
- The Painless scripts of `updateWithQueryAndScript`. Their effect lives in the store's script
  engine, so only the layout of the script array is modelled.
- HashSet order of dependents. Dependents are listed by cache position in cache order. A cache
  holding two segments with the same id lists both, where the `HashSet` would keep one.
- Rule equality in `removeAll`. It is modelled as id equality, which is how the stored items compare.
- Condition trees are values, so the in-place `setParameter` and `List.remove` are modelled by
  returning the new tree. Aliasing between the cache and what a caller holds is not modelled.
  One exception is kept: the removal report reads the cached metadata after the change, as the
  aliased objects in the implementation do.
- Ill-typed parameters, where Java would throw a cast or null-pointer exception. They read as
  absent or empty.
- A null failed-id list from the store. It is the same as an empty one.
- Counters are unbounded integers except where wrap-around matters. The exceptions are the scores,
  which are `int`, and the partition count's `(int)` cast.
- Service.SegmentService.UpdateProfilesSegment: the scroll pages through the selection as it
  stood at the first query. Each page's profiles are read from that snapshot, not reloaded.
- Service.SegmentService.UpdateExistingProfilesForSegment: requires an enabled segment to have a
  condition. In the model its only caller, `setSegmentDefinition`, refuses such a segment first
  (see the next line).
- Service.SegmentService.SetSegmentDefinition: an enabled segment with a null condition is refused
  with `BadSegmentCondition` whatever the store's validation says (`Rejected`). The store's
  validation is taken to refuse null; the path where it accepts null is not modelled.
- Service.SegmentService.SetSegmentDefinition: when a profile update exhausts its retries, the
  contract states the segment and rules as saved but, of the profiles, only that their ids stay;
  the writes made before the throw are not stated.
- Service.SegmentService.UpdateExistingProfilesForSegment: on `RetriesExhausted` the contract keeps
  only the profile ids; the pages and profiles already written before the throw are not stated.
- Service.SegmentService.UpdateProfilesSegment: on `RetriesExhausted` the contract keeps only the
  profile ids; the earlier pages' writes are not stated.
- Service.SegmentService.UpdatePages: on `RetriesExhausted` the contract keeps only the profile
  ids; the writes of the pages before the failing one are not stated.
- Service.SegmentService.BatchUpdateProfilesSegment: on `RetriesExhausted` the contract keeps only
  the profile ids; the multi-profile update and the retries that landed before the throw are not
  stated.
- Service.SegmentService.StripSegment: on `RetriesExhausted` the contract keeps only the profile
  ids; the members already stripped are not stated.
- Service.SegmentService.UpdateExistingProfilesForPastEventCondition: requires the parent to carry
  a `generatedPropertyKey`. Its only caller stamps the parent just before.
- Service.SegmentService.UpdateProfilesWithPastEventProperty: a batch whose update throws counts as
  writing nothing. Partial writes by the store are not modelled.
- Service.SegmentService.SetScoringDefinition: when an element's rule update throws, the contract
  does not say which rules and profiles the earlier elements already wrote.
- Service.SegmentService.RemoveSegmentDefinition: when a step throws part-way, the contract says
  only what holds of the keys and lengths, not which dependents were already rewritten.
- Service.SegmentService.RemoveScoringDefinition: the same as for segments.
- Service.SegmentService.RemoveSegmentDefinition: the `profileUpdated` events sent while the
  dependents are saved are not stated; the contract covers the stores and the cache.
- Service.SegmentService.RemoveSegmentDefinition: "no rule links the segment or an emptied
  dependent" is stated when the dependents' ids are distinct and differ from the segment's, and
  for an item each rule linked at most once. `List.remove` drops one occurrence, so a rule naming
  an item twice keeps one link.
- Service.SegmentService.RemoveScoringDefinition: the same two gaps as for segments.
- Service.SegmentRewriteFacts: "no longer refers to the deleted id" holds only on `Rewritable`
  trees (boolean-only `subConditions` containers, the id named at most once per segment list),
  for the reasons given for `Rewrite.RewriteRemovesReference`.
- Rewrite.RewriteRemovesReference: holds only on trees whose `subConditions` containers are all
  boolean nodes and whose segment lists name the id at most once. On other trees the implementation
  leaves the reference in place, as `Rewrite.DuplicateReferenceSurvives` and
  `Rewrite.NonBooleanContainerUnchanged` show.
- Service.SegmentService.RemoveSegmentDefinition: "no profile keeps the segment" is stated only
  when every update lands (the matcher reads membership as it is) and the segment is not one of its
  own dependents.
