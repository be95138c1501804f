/** SegmentServiceImpl as a stateful object: the cached definitions, the stores it writes through
    the persistence and rules services, and the operations that keep profiles, rules and
    definitions consistent when a definition is saved or removed. */
module Service {
  import opened Wrappers
  import opened Lists
  import opened Conditions
  import opened Definitions
  import opened Impact
  import opened Rewrite
  import opened Classification
  import opened RuleKeys
  import opened Bulk
  import opened AutoRules

  /** The service's tunables, with the defaults the implementation starts from. */
  datatype Config = Config(
    segmentUpdateBatchSize: Int32,
    aggregateQueryBucketSize: Int32,
    maxRetriesForUpdateProfileSegment: Int32,
    batchSegmentProfileUpdate: bool,
    sendProfileUpdateEventForSegmentUpdate: bool,
    maximumIdsQueryCount: Int32,
    pastEventsDisablePartitions: bool)

  const DefaultConfig := Config(1000, 5000, 0, false, true, 5000, false)

  /** What the service asks of the code it calls and the model does not interpret: the store's
      matcher and validity check, the key serializer and digest, the event aggregations, and which
      store updates fail. */
  datatype External = External(
    testMatch: Matcher,
    isValidCondition: Option<Condition> -> bool,
    serialize: Serializer,
    md5: Digest,
    /** aggregateWithOptimizedQuery over the event condition alone, with the id cap. */
    aggregate: (Condition, int) -> seq<PastEventEntry>,
    /** the "_card" metric of the past-event query. */
    cardinality: Condition -> int,
    /** aggregateWithOptimizedQuery of partition i of n. */
    aggregatePartition: (Condition, int, int) -> seq<PastEventEntry>,
    /** the multi-profile past-event update throws for this batch. */
    pastEventBatchThrows: seq<PastEventEntry> -> bool,
    /** the profiles a past-event update does not write. */
    pastEventFailed: set<string>,
    /** attempt k of a single-profile update succeeds: 0 is the one-by-one update, 1.. the retries. */
    updateSucceeds: (string, nat) -> bool,
    /** the multi-profile segment update reports the profile as failed. */
    bulkUpdateFails: string -> bool)

  function SetOf(s: seq<string>): set<string> {
    set x | x in s
  }

  /** The profiles a segment change sends as profileUpdated events: each one as the update built it. */
  function UpdatedProfiles(store: map<string, Profile>, ids: seq<string>, segmentId: string, isAdd: bool, now: int): (r: seq<Profile>)
    requires forall id :: id in ids ==> id in store
    ensures |r| == |ids|
    ensures forall i :: 0 <= i < |ids| ==> r[i] == SegmentUpdated(store[ids[i]], segmentId, isAdd, now)
  {
    seq(|ids|, i requires 0 <= i < |ids| => SegmentUpdated(store[ids[i]], segmentId, isAdd, now))
  }

  lemma SplitPrefix(s: seq<string>, k: nat, end: nat)
    requires k <= end <= |s| && Distinct(s)
    ensures s[..end] == s[..k] + s[k..end]
    ensures SetOf(s[..end]) == SetOf(s[..k]) + SetOf(s[k..end])
    ensures SetOf(s[..k]) !! SetOf(s[k..end])
    ensures Distinct(s[k..end])
  {
    assert s[..end] == s[..k] + s[k..end];
  }

  lemma AppendAssoc<T>(a: seq<T>, b: seq<T>, c: seq<T>)
    ensures (a + b) + c == a + (b + c)
  {
  }

  lemma UpdatedProfilesAppend(store: map<string, Profile>, a: seq<string>, b: seq<string>, segmentId: string, isAdd: bool, now: int)
    requires forall id :: id in a + b ==> id in store
    ensures UpdatedProfiles(store, a, segmentId, isAdd, now) + UpdatedProfiles(store, b, segmentId, isAdd, now) ==
            UpdatedProfiles(store, a + b, segmentId, isAdd, now)
  {
    assert forall id :: id in a ==> id in a + b;
    assert forall id :: id in b ==> id in a + b;
  }

  class SegmentService {
    const config: Config
    const ext: External

    /** The cache the scheduler refreshes: allSegments and allScoring. */
    var allSegments: seq<Segment>
    var allScoring: seq<Scoring>

    /** The persisted segments, scorings, rules and profiles, by id. */
    var segments: map<string, Segment>
    var scorings: map<string, Scoring>
    var rules: map<string, Rule>
    var profiles: map<string, Profile>

    /** The profileUpdated events sent, in order. */
    var events: seq<Profile>

    /** The script arrays handed to updateWithQueryAndScript, in order. */
    var scripts: seq<seq<Option<ScriptStep>>>

    /** Every store holds each item under its own id. */
    ghost predicate Valid()
      reads this
    {
      && StoreKeyed(rules)
      && (forall k :: k in segments ==> segments[k].metadata.id == k)
      && (forall k :: k in scorings ==> scorings[k].metadata.id == k)
    }

    constructor (config: Config, ext: External)
      ensures Valid()
      ensures this.config == config && this.ext == ext
      ensures allSegments == [] && allScoring == []
      ensures segments == map[] && scorings == map[] && rules == map[] && profiles == map[]
      ensures events == [] && scripts == []
    {
      this.config := config;
      this.ext := ext;
      allSegments := [];
      allScoring := [];
      segments := map[];
      scorings := map[];
      rules := map[];
      profiles := map[];
      events := [];
      scripts := [];
    }

    // -------------------------------------------------------------------------------------------
    // Which single-profile updates go through.

    predicate Succeeds(id: string, attempt: nat) {
      ext.updateSucceeds(id, attempt)
    }

    predicate BulkFails(id: string) {
      ext.bulkUpdateFails(id)
    }

    /** One of the maxRetries + 1 attempts of the retry policy succeeds. */
    predicate RetryLands(id: string) {
      exists k :: 1 <= k <= config.maxRetriesForUpdateProfileSegment + 1 && Succeeds(id, k)
    }

    /** The segment update of a selected profile reaches the store: one by one it is the single
        attempt; in batches it is the multi-profile update, or else a retry when retries are on. */
    predicate Lands(id: string) {
      if config.batchSegmentProfileUpdate
      then !BulkFails(id) || (config.maxRetriesForUpdateProfileSegment > 0 && RetryLands(id))
      else Succeeds(id, 0)
    }

    /** The retry policy gives up on the profile, which throws out of the whole update. */
    predicate Exhausts(id: string) {
      && config.batchSegmentProfileUpdate && BulkFails(id)
      && config.maxRetriesForUpdateProfileSegment > 0 && !RetryLands(id)
    }

    lemma LandsOrExhausts(id: string)
      ensures !(Lands(id) && Exhausts(id))
      ensures config.maxRetriesForUpdateProfileSegment <= 0 || !config.batchSegmentProfileUpdate ==> !Exhausts(id)
    {
    }

    /** The profiles of the store the query selects. */
    function Matching(store: map<string, Profile>, query: Condition): set<string> {
      set k | k in store && ext.testMatch(Some(query), store[k])
    }

    /** The store after the segment update of the selected ids, where it lands. */
    function Pass(store: map<string, Profile>, ids: set<string>, segmentId: string, isAdd: bool, now: int): (r: map<string, Profile>)
      ensures r.Keys == store.Keys
    {
      map k | k in store :: if k in ids && Lands(k) then SegmentUpdated(store[k], segmentId, isAdd, now) else store[k]
    }

    /** updateProfilesSegment on the store: the scroll visits every selected profile once, and
        none when the page size is not positive. */
    function PassOn(store: map<string, Profile>, query: Condition, segmentId: string, isAdd: bool, now: int): map<string, Profile> {
      if config.segmentUpdateBatchSize > 0 then Pass(store, Matching(store, query), segmentId, isAdd, now) else store
    }

    /** A store that agrees with the update of the ids at every key is that update. */
    lemma PassIs(store: map<string, Profile>, ids: set<string>, segmentId: string, isAdd: bool, now: int, result: map<string, Profile>)
      requires result.Keys == store.Keys
      requires forall k :: k in store ==>
                 result[k] == if k in ids && Lands(k) then SegmentUpdated(store[k], segmentId, isAdd, now) else store[k]
      ensures result == Pass(store, ids, segmentId, isAdd, now)
    {
    }

    /** Updating two disjoint groups one after the other is updating them together. */
    lemma PassCompose(store: map<string, Profile>, a: set<string>, b: set<string>, segmentId: string, isAdd: bool, now: int)
      requires a !! b
      ensures Pass(Pass(store, a, segmentId, isAdd, now), b, segmentId, isAdd, now) == Pass(store, a + b, segmentId, isAdd, now)
    {
    }

    /** A pass touches only the segment membership and lastUpdated of the profiles it updates. */
    lemma PassTouchesOnlySegment(store: map<string, Profile>, ids: set<string>, segmentId: string, isAdd: bool, now: int, k: string)
      requires k in store
      ensures var p := Pass(store, ids, segmentId, isAdd, now)[k];
              && p.itemId == store[k].itemId && p.scores == store[k].scores
              && p.systemProperties.pastEvents == store[k].systemProperties.pastEvents
              && (forall other :: other != segmentId ==> (other in p.segments <==> other in store[k].segments))
              && (k in ids && Lands(k) ==> (segmentId in p.segments <==> isAdd))
              && (!(k in ids && Lands(k)) ==> p == store[k])
    {
    }

    // -------------------------------------------------------------------------------------------
    // Reading the profile store.

    /** persistenceService.query over profiles: every selected profile once, in the store's order. */
    method QueryProfiles(query: Condition) returns (ids: seq<string>)
      ensures Distinct(ids)
      ensures forall id :: id in ids <==> id in Matching(profiles, query)
    {
      ids := [];
      var remaining := profiles.Keys;
      while remaining != {}
        invariant remaining <= profiles.Keys
        invariant forall id :: id in ids ==> id !in remaining
        invariant Distinct(ids)
        invariant forall id :: id in ids <==> id in profiles && id !in remaining && id in Matching(profiles, query)
        decreases |remaining|
      {
        var id :| id in remaining;
        remaining := remaining - {id};
        if ext.testMatch(Some(query), profiles[id]) {
          ids := ids + [id];
        }
      }
    }

    // -------------------------------------------------------------------------------------------
    // retryFailedSegmentUpdate, batchUpdateProfilesSegment, updateProfilesSegment.

    /** retryFailedSegmentUpdate: nothing when retries are off; otherwise up to maxRetries + 1
        attempts, each reloading the profile (a missing one fails the attempt), until one succeeds;
        when none does, the retry policy throws. */
    method RetryFailedSegmentUpdate(profileId: string, segmentId: string, isAdd: bool, now: int)
      returns (r: Result<()>, attempts: nat)
      modifies this`profiles
      ensures config.maxRetriesForUpdateProfileSegment <= 0 ==> r.Ok? && attempts == 0 && profiles == old(profiles)
      ensures config.maxRetriesForUpdateProfileSegment > 0 ==>
                && 1 <= attempts <= config.maxRetriesForUpdateProfileSegment + 1
                && (forall k :: 1 <= k < attempts ==> !(profileId in profiles && Succeeds(profileId, k)))
                && (r.Ok? <==> profileId in old(profiles) && Succeeds(profileId, attempts))
                && (r.Ok? <==> profileId in old(profiles) && RetryLands(profileId))
      ensures r.Ok? && attempts > 0 ==>
                profileId in old(profiles) &&
                profiles == old(profiles)[profileId := SegmentUpdated(old(profiles)[profileId], segmentId, isAdd, now)]
      ensures r.Err? ==> r.error == RetriesExhausted(profileId) && profiles == old(profiles)
    {
      attempts := 0;
      if config.maxRetriesForUpdateProfileSegment <= 0 {
        return Ok(()), 0;
      }
      var limit: int := config.maxRetriesForUpdateProfileSegment + 1;
      var updated := false;
      while !updated && attempts < limit
        invariant 0 <= attempts <= limit
        invariant updated ==> attempts >= 1
        invariant forall k :: 1 <= k <= attempts && !(updated && k == attempts) ==> !(profileId in profiles && Succeeds(profileId, k))
        invariant updated ==> profileId in old(profiles) && Succeeds(profileId, attempts) &&
                              profiles == old(profiles)[profileId := SegmentUpdated(old(profiles)[profileId], segmentId, isAdd, now)]
        invariant !updated ==> profiles == old(profiles)
        decreases limit - attempts
      {
        attempts := attempts + 1;
        if profileId in profiles && Succeeds(profileId, attempts) {
          var built := BuildPropertiesMapForUpdateSegment(profiles[profileId], segmentId, isAdd, now);
          profiles := profiles[profileId := ApplySegmentSource(profiles[profileId], built.1)];
          updated := true;
        }
      }
      if updated {
        r := Ok(());
      } else {
        r := Err(RetriesExhausted(profileId));
      }
    }

    /** The multi-profile update of batchUpdateProfilesSegment: every profile of the page whose
        entry does not fail is updated; the failed ids come back in page order. */
    method BulkUpdate(page: seq<string>, segmentId: string, isAdd: bool, now: int) returns (failed: seq<string>)
      requires Distinct(page) && forall id :: id in page ==> id in profiles
      modifies this`profiles
      ensures profiles.Keys == old(profiles).Keys
      ensures forall k :: k in profiles ==>
                profiles[k] == if k in page && !BulkFails(k) then SegmentUpdated(old(profiles)[k], segmentId, isAdd, now)
                               else old(profiles)[k]
      ensures Distinct(failed) && forall id :: id in failed <==> id in page && BulkFails(id)
    {
      failed := [];
      var store := profiles;
      ghost var start := profiles;
      var i := 0;
      while i < |page|
        invariant 0 <= i <= |page|
        invariant store.Keys == start.Keys
        invariant forall k :: k in store ==>
                    store[k] == if k in page[..i] && !BulkFails(k) then SegmentUpdated(start[k], segmentId, isAdd, now)
                                else start[k]
        invariant Distinct(failed) && forall id :: id in failed <==> id in page[..i] && BulkFails(id)
      {
        var id := page[i];
        assert page[..i + 1] == page[..i] + [id];
        assert id !in page[..i];
        if BulkFails(id) {
          failed := failed + [id];
        } else {
          var built := BuildPropertiesMapForUpdateSegment(store[id], segmentId, isAdd, now);
          store := store[id := ApplySegmentSource(store[id], built.1)];
        }
        i := i + 1;
      }
      assert page[..i] == page;
      profiles := store;
    }

    /** The store after the retries of the failed ids: a retry that lands updates the profile as it
        was before the multi-profile update; every other profile is as that update left it. */
    function Retried(bulked: map<string, Profile>, orig: map<string, Profile>, ids: seq<string>,
                     segmentId: string, isAdd: bool, now: int): (r: map<string, Profile>)
      requires bulked.Keys == orig.Keys
      ensures r.Keys == bulked.Keys
    {
      map k | k in bulked ::
        if k in ids && config.maxRetriesForUpdateProfileSegment > 0 && RetryLands(k)
        then SegmentUpdated(orig[k], segmentId, isAdd, now) else bulked[k]
    }

    /** An id not retried yet is as the multi-profile update left it. */
    lemma RetriedUntouched(bulked: map<string, Profile>, orig: map<string, Profile>, ids: seq<string>, id: string,
                           segmentId: string, isAdd: bool, now: int)
      requires bulked.Keys == orig.Keys && id in bulked && id !in ids
      ensures Retried(bulked, orig, ids, segmentId, isAdd, now)[id] == bulked[id]
    {
    }

    /** One more retried id changes that profile alone, and only when its retry lands. */
    lemma RetriedSnoc(bulked: map<string, Profile>, orig: map<string, Profile>, ids: seq<string>, id: string,
                      segmentId: string, isAdd: bool, now: int)
      requires bulked.Keys == orig.Keys && id in bulked && id !in ids
      ensures var before := Retried(bulked, orig, ids, segmentId, isAdd, now);
              Retried(bulked, orig, ids + [id], segmentId, isAdd, now) ==
                if config.maxRetriesForUpdateProfileSegment > 0 && RetryLands(id)
                then before[id := SegmentUpdated(orig[id], segmentId, isAdd, now)] else before
    {
      var before := Retried(bulked, orig, ids, segmentId, isAdd, now);
      var after := Retried(bulked, orig, ids + [id], segmentId, isAdd, now);
      var expected := if config.maxRetriesForUpdateProfileSegment > 0 && RetryLands(id)
                      then before[id := SegmentUpdated(orig[id], segmentId, isAdd, now)] else before;
      forall k | k in after ensures after[k] == expected[k] {
        assert k in ids + [id] <==> k in ids || k == id;
      }
      MapsAgree(after, expected);
    }

    /** batchUpdateProfilesSegment: the multi-profile update, then a retry of each failed id in
        order; an exhausted retry throws and ends the method. */
    method BatchUpdateProfilesSegment(segmentId: string, page: seq<string>, isAdd: bool, now: int) returns (r: Result<()>)
      requires config.batchSegmentProfileUpdate
      requires Distinct(page) && forall id :: id in page ==> id in profiles
      modifies this`profiles
      ensures profiles.Keys == old(profiles).Keys
      ensures r.Ok? <==> forall id :: id in page ==> !Exhausts(id)
      ensures r.Err? ==> r.error.RetriesExhausted? && r.error.profileId in page && Exhausts(r.error.profileId)
      ensures r.Ok? ==> profiles == Pass(old(profiles), SetOf(page), segmentId, isAdd, now)
    {
      var failed := BulkUpdate(page, segmentId, isAdd, now);
      ghost var bulked := profiles;
      r := RetryEach(failed, segmentId, isAdd, now, old(profiles));
      if r.Ok? {
        RetriedIsPass(bulked, old(profiles), page, failed, segmentId, isAdd, now);
      }
    }

    /** The retry loop of batchUpdateProfilesSegment: each failed id in order, starting from the
        profile as it was before the multi-profile update; the first exhausted retry throws. */
    method RetryEach(failed: seq<string>, segmentId: string, isAdd: bool, now: int, ghost orig: map<string, Profile>)
      returns (r: Result<()>)
      requires config.batchSegmentProfileUpdate && Distinct(failed) && orig.Keys == profiles.Keys
      requires forall id :: id in failed ==> BulkFails(id) && id in profiles && profiles[id] == orig[id]
      modifies this`profiles
      ensures profiles.Keys == old(profiles).Keys
      ensures r.Ok? <==> forall id :: id in failed ==> !Exhausts(id)
      ensures r.Err? ==> r.error.RetriesExhausted? && r.error.profileId in failed && Exhausts(r.error.profileId)
      ensures r.Ok? ==> profiles == Retried(old(profiles), orig, failed, segmentId, isAdd, now)
    {
      var i := 0;
      assert profiles == Retried(old(profiles), orig, failed[..0], segmentId, isAdd, now);
      while i < |failed|
        invariant 0 <= i <= |failed|
        invariant forall k :: 0 <= k < i ==> !Exhausts(failed[k])
        invariant profiles == Retried(old(profiles), orig, failed[..i], segmentId, isAdd, now)
        invariant profiles.Keys == old(profiles).Keys
      {
        var id := failed[i];
        assert failed[..i + 1] == failed[..i] + [id];
        assert id !in failed[..i];
        RetriedUntouched(old(profiles), orig, failed[..i], id, segmentId, isAdd, now);
        var res, attempts := RetryFailedSegmentUpdate(id, segmentId, isAdd, now);
        if res.Err? {
          assert Exhausts(id);
          return Err(res.error);
        }
        RetriedSnoc(old(profiles), orig, failed[..i], id, segmentId, isAdd, now);
        i := i + 1;
      }
      assert failed[..i] == failed;
      forall id | id in failed ensures !Exhausts(id) {
        var k :| 0 <= k < |failed| && failed[k] == id;
      }
      return Ok(());
    }

    /** Retrying every failed id of a multi-profile update gives the pass over the page. */
    lemma RetriedIsPass(bulked: map<string, Profile>, orig: map<string, Profile>, page: seq<string>, failed: seq<string>,
                        segmentId: string, isAdd: bool, now: int)
      requires config.batchSegmentProfileUpdate && bulked.Keys == orig.Keys
      requires forall k :: k in bulked ==>
                 bulked[k] == if k in page && !BulkFails(k) then SegmentUpdated(orig[k], segmentId, isAdd, now) else orig[k]
      requires forall id :: id in failed <==> id in page && BulkFails(id)
      ensures Retried(bulked, orig, failed, segmentId, isAdd, now) == Pass(orig, SetOf(page), segmentId, isAdd, now)
    {
      var r := Retried(bulked, orig, failed, segmentId, isAdd, now);
      forall k | k in orig
        ensures r[k] == if k in SetOf(page) && Lands(k) then SegmentUpdated(orig[k], segmentId, isAdd, now) else orig[k]
      {
      }
      PassIs(orig, SetOf(page), segmentId, isAdd, now, r);
    }

    /** The one-by-one branch of updateProfilesSegment: each profile of the page is updated with its
        own map; a failed update is not retried. */
    method UpdateOneByOne(page: seq<string>, segmentId: string, isAdd: bool, now: int)
      requires !config.batchSegmentProfileUpdate
      requires Distinct(page) && forall id :: id in page ==> id in profiles
      modifies this`profiles
      ensures profiles == Pass(old(profiles), SetOf(page), segmentId, isAdd, now)
    {
      var store := profiles;
      ghost var start := profiles;
      var i := 0;
      while i < |page|
        invariant 0 <= i <= |page|
        invariant store.Keys == start.Keys
        invariant forall k :: k in store ==>
                    store[k] == if k in page[..i] && Succeeds(k, 0) then SegmentUpdated(start[k], segmentId, isAdd, now)
                                else start[k]
      {
        var id := page[i];
        assert page[..i + 1] == page[..i] + [id];
        assert id !in page[..i];
        if Succeeds(id, 0) {
          var built := BuildPropertiesMapForUpdateSegment(store[id], segmentId, isAdd, now);
          store := store[id := ApplySegmentSource(store[id], built.1)];
        }
        i := i + 1;
      }
      assert page[..i] == page;
      PassIs(start, SetOf(page), segmentId, isAdd, now, store);
      profiles := store;
    }

    /** The profileUpdated events a segment change sends for the ids, when events are on. */
    function Announced(store: map<string, Profile>, ids: seq<string>, segmentId: string, isAdd: bool, now: int): seq<Profile>
      requires forall id :: id in ids ==> id in store
    {
      if config.sendProfileUpdateEventForSegmentUpdate then UpdatedProfiles(store, ids, segmentId, isAdd, now) else []
    }

    lemma AnnouncedAppend(store: map<string, Profile>, a: seq<string>, b: seq<string>, segmentId: string, isAdd: bool, now: int)
      requires forall id :: id in a + b ==> id in store
      ensures Announced(store, a, segmentId, isAdd, now) + Announced(store, b, segmentId, isAdd, now) ==
              Announced(store, a + b, segmentId, isAdd, now)
    {
      UpdatedProfilesAppend(store, a, b, segmentId, isAdd, now);
    }

    /** One page of the scroll: updated in one batch or one by one, then announced. */
    method UpdatePage(page: seq<string>, segmentId: string, isAdd: bool, now: int, base: map<string, Profile>)
      returns (r: Result<()>)
      requires Distinct(page) && forall id :: id in page ==> id in profiles && id in base
      modifies this`profiles, this`events
      ensures profiles.Keys == old(profiles).Keys
      ensures r.Ok? <==> forall id :: id in page ==> !Exhausts(id)
      ensures r.Err? ==> r.error.RetriesExhausted? && r.error.profileId in page && Exhausts(r.error.profileId)
      ensures r.Ok? ==> profiles == Pass(old(profiles), SetOf(page), segmentId, isAdd, now)
      ensures r.Ok? ==> events == old(events) + Announced(base, page, segmentId, isAdd, now)
    {
      if config.batchSegmentProfileUpdate {
        r := BatchUpdateProfilesSegment(segmentId, page, isAdd, now);
        if r.Err? {
          return;
        }
      } else {
        UpdateOneByOne(page, segmentId, isAdd, now);
        r := Ok(());
      }
      if config.sendProfileUpdateEventForSegmentUpdate {
        events := events + UpdatedProfiles(base, page, segmentId, isAdd, now);
      }
    }

    /** One turn of the scroll loop: the page snapshot[k..end] after the pages before it. */
    method UpdateNextPage(snapshot: seq<string>, k: nat, end: nat, segmentId: string, isAdd: bool, now: int,
                          base: map<string, Profile>, ghost start: map<string, Profile>, ghost startEvents: seq<Profile>)
      returns (r: Result<()>)
      requires k <= end <= |snapshot| && Distinct(snapshot)
      requires forall id :: id in snapshot ==> id in base && id in start
      requires profiles == Pass(start, SetOf(snapshot[..k]), segmentId, isAdd, now)
      requires events == startEvents + Announced(base, snapshot[..k], segmentId, isAdd, now)
      modifies this`profiles, this`events
      ensures profiles.Keys == start.Keys
      ensures r.Ok? <==> forall id :: id in snapshot[k..end] ==> !Exhausts(id)
      ensures r.Err? ==> r.error.RetriesExhausted? && r.error.profileId in snapshot && Exhausts(r.error.profileId)
      ensures r.Ok? ==> profiles == Pass(start, SetOf(snapshot[..end]), segmentId, isAdd, now)
      ensures r.Ok? ==> events == startEvents + Announced(base, snapshot[..end], segmentId, isAdd, now)
    {
      var page := snapshot[k..end];
      SplitPrefix(snapshot, k, end);
      ghost var sent := Announced(base, snapshot[..k], segmentId, isAdd, now);
      ghost var pageSent := Announced(base, page, segmentId, isAdd, now);
      r := UpdatePage(page, segmentId, isAdd, now, base);
      if r.Ok? {
        PassCompose(start, SetOf(snapshot[..k]), SetOf(page), segmentId, isAdd, now);
        AnnouncedAppend(base, snapshot[..k], page, segmentId, isAdd, now);
        AppendAssoc(startEvents, sent, pageSent);
      }
    }

    /** The scroll loop of updateProfilesSegment over the selected ids, a page at a time. */
    method UpdatePages(snapshot: seq<string>, segmentId: string, isAdd: bool, now: int) returns (r: Result<()>)
      requires config.segmentUpdateBatchSize > 0
      requires Distinct(snapshot) && forall id :: id in snapshot ==> id in profiles
      modifies this`profiles, this`events
      ensures profiles.Keys == old(profiles).Keys
      ensures r.Ok? <==> forall id :: id in snapshot ==> !Exhausts(id)
      ensures r.Err? ==> r.error.RetriesExhausted? && r.error.profileId in snapshot && Exhausts(r.error.profileId)
      ensures r.Ok? ==> profiles == Pass(old(profiles), SetOf(snapshot), segmentId, isAdd, now)
      ensures r.Ok? ==> events == old(events) + Announced(old(profiles), snapshot, segmentId, isAdd, now)
    {
      var base := profiles;
      var size := config.segmentUpdateBatchSize;
      var k := 0;
      assert snapshot[..0] == [];
      while k < |snapshot|
        invariant 0 <= k <= |snapshot|
        invariant profiles.Keys == old(profiles).Keys
        invariant profiles == Pass(old(profiles), SetOf(snapshot[..k]), segmentId, isAdd, now)
        invariant forall id :: id in snapshot[..k] ==> !Exhausts(id)
        invariant events == old(events) + Announced(base, snapshot[..k], segmentId, isAdd, now)
      {
        var end := if k + size < |snapshot| then k + size else |snapshot|;
        var res := UpdateNextPage(snapshot, k, end, segmentId, isAdd, now, base, old(profiles), old(events));
        if res.Err? {
          assert res.error.profileId in snapshot && Exhausts(res.error.profileId);
          return Err(res.error);
        }
        assert snapshot[..end] == snapshot[..k] + snapshot[k..end];
        assert forall id :: id in snapshot[..end] ==> id in snapshot[..k] || id in snapshot[k..end];
        k := end;
      }
      assert snapshot[..k] == snapshot;
      return Ok(());
    }

    /** updateProfilesSegment: the selected profiles are scrolled in pages of segmentUpdateBatchSize
        (none when that is not positive); each page is updated in one batch or one by one, and
        then announced one event per profile when events are on. The count is the number of
        profiles visited. */
    method UpdateProfilesSegment(query: Condition, segmentId: string, isAdd: bool, now: int)
      returns (r: Result<int>, ghost visited: seq<string>)
      modifies this`profiles, this`events
      ensures profiles.Keys == old(profiles).Keys
      ensures r.Err? <==> config.segmentUpdateBatchSize > 0 && exists id :: id in Matching(old(profiles), query) && Exhausts(id)
      ensures r.Err? ==> r.error.RetriesExhausted? && Exhausts(r.error.profileId)
      ensures r.Ok? ==> profiles == PassOn(old(profiles), query, segmentId, isAdd, now)
      ensures r.Ok? ==> r.value == if config.segmentUpdateBatchSize > 0 then |Matching(old(profiles), query)| else 0
      ensures r.Ok? ==> Distinct(visited) && forall id :: id in visited ==> id in old(profiles)
      ensures r.Ok? ==> SetOf(visited) == if config.segmentUpdateBatchSize > 0 then Matching(old(profiles), query) else {}
      ensures r.Ok? ==> events == old(events) + Announced(old(profiles), visited, segmentId, isAdd, now)
    {
      var snapshot := QueryProfiles(query);
      if config.segmentUpdateBatchSize <= 0 {
        return Ok(0), [];
      }
      assert SetOf(snapshot) == Matching(old(profiles), query);
      var res := UpdatePages(snapshot, segmentId, isAdd, now);
      if res.Err? {
        return Err(res.error), [];
      }
      DistinctCard(snapshot);
      return Ok(|snapshot|), snapshot;
    }

    predicate IdsIn(ids: seq<string>, store: map<string, Profile>) {
      forall x :: x in ids ==> x in store
    }

    /** The store after updateExistingProfilesForSegment: the add pass then the remove pass of an
        enabled segment, or the remove pass over all members of a disabled one. */
    function SegmentSettled(store: map<string, Profile>, segment: Segment, now: int): (r: map<string, Profile>)
      requires segment.metadata.enabled ==> segment.condition.Some?
      ensures r.Keys == store.Keys
    {
      var id := segment.metadata.id;
      if segment.metadata.enabled then
        var c := segment.condition.value;
        PassOn(PassOn(store, ProfilesToAdd(c, id), id, true, now), ProfilesToRemove(c, id), id, false, now)
      else PassOn(store, MembershipQuery(id), id, false, now)
    }

    /** The events of those passes, for the ids they visit in order. */
    function SegmentSent(store: map<string, Profile>, segment: Segment, added: seq<string>, removed: seq<string>, now: int)
      : seq<Profile>
      requires segment.metadata.enabled ==> segment.condition.Some?
      requires IdsIn(added, store) && IdsIn(removed, store)
    {
      var id := segment.metadata.id;
      if segment.metadata.enabled then
        Announced(store, added, id, true, now) +
        Announced(PassOn(store, ProfilesToAdd(segment.condition.value, id), id, true, now), removed, id, false, now)
      else Announced(store, removed, id, false, now)
    }

    /** updateExistingProfilesForSegment: for an enabled segment, an add pass over the profiles
        that match but are not members, then a remove pass over the members that no longer match
        (selected on the store as the add pass left it); for a disabled one, a remove pass over
        all members. The ids each pass visits are returned for the events they send. */
    method UpdateExistingProfilesForSegment(segment: Segment, now: int)
      returns (r: Result<()>, ghost added: seq<string>, ghost removed: seq<string>)
      requires segment.metadata.enabled ==> segment.condition.Some?
      modifies this`profiles, this`events
      ensures profiles.Keys == old(profiles).Keys
      ensures r.Err? ==> r.error.RetriesExhausted? && Exhausts(r.error.profileId)
      ensures !config.batchSegmentProfileUpdate || config.maxRetriesForUpdateProfileSegment <= 0 ==> r.Ok?
      ensures r.Ok? ==> profiles == SegmentSettled(old(profiles), segment, now)
      ensures r.Ok? ==> IdsIn(added, old(profiles)) && IdsIn(removed, old(profiles)) && (!segment.metadata.enabled ==> added == [])
      ensures r.Ok? ==> events == old(events) + SegmentSent(old(profiles), segment, added, removed, now)
    {
      var id := segment.metadata.id;
      added := [];
      if segment.metadata.enabled {
        var c := segment.condition.value;
        r, added, removed := AddAndRemovePasses(c, id, now);
        if r.Ok? {
          ghost var afterAdd := PassOn(old(profiles), ProfilesToAdd(c, id), id, true, now);
          AppendAssoc(old(events), Announced(old(profiles), added, id, true, now), Announced(afterAdd, removed, id, false, now));
          assert SegmentSent(old(profiles), segment, added, removed, now) ==
                 Announced(old(profiles), added, id, true, now) + Announced(afterAdd, removed, id, false, now);
        }
      } else {
        var res;
        res, removed := UpdateProfilesSegment(MembershipQuery(id), id, false, now);
        if res.Err? {
          return Err(res.error), added, removed;
        }
        r := Ok(());
      }
    }

    /** The two passes of an enabled segment with condition c. */
    method AddAndRemovePasses(c: Condition, id: string, now: int)
      returns (r: Result<()>, ghost added: seq<string>, ghost removed: seq<string>)
      modifies this`profiles, this`events
      ensures profiles.Keys == old(profiles).Keys
      ensures r.Err? ==> r.error.RetriesExhausted? && Exhausts(r.error.profileId)
      ensures !config.batchSegmentProfileUpdate || config.maxRetriesForUpdateProfileSegment <= 0 ==> r.Ok?
      ensures var afterAdd := PassOn(old(profiles), ProfilesToAdd(c, id), id, true, now);
              r.Ok? ==>
                && profiles == PassOn(afterAdd, ProfilesToRemove(c, id), id, false, now)
                && IdsIn(added, old(profiles)) && IdsIn(removed, old(profiles))
                && events == old(events) + Announced(old(profiles), added, id, true, now) + Announced(afterAdd, removed, id, false, now)
    {
      var res: Result<int>;
      res, added := UpdateProfilesSegment(ProfilesToAdd(c, id), id, true, now);
      if res.Err? {
        return Err(res.error), added, [];
      }
      res, removed := UpdateProfilesSegment(ProfilesToRemove(c, id), id, false, now);
      if res.Err? {
        return Err(res.error), added, removed;
      }
      r := Ok(());
    }

    /** With a matcher that evaluates the query shapes as their names say, updates that all land,
        and a segment condition blind to what the update writes, saving an enabled segment leaves a
        profile in the segment exactly when it matches the condition, and every other membership
        as it was. */
    lemma SegmentPassesSettle(store: map<string, Profile>, c: Condition, id: string, now: int, k: string)
      requires Compositional(ext.testMatch) && config.segmentUpdateBatchSize > 0
      requires forall x :: Lands(x)
      requires k in store
      requires ext.testMatch(Some(c), SegmentUpdated(store[k], id, true, now)) == ext.testMatch(Some(c), store[k])
      ensures var q := PassOn(PassOn(store, ProfilesToAdd(c, id), id, true, now), ProfilesToRemove(c, id), id, false, now)[k];
              && (id in q.segments <==> ext.testMatch(Some(c), store[k]))
              && forall other :: other != id ==> (other in q.segments <==> other in store[k].segments)
    {
      var afterAdd := PassOn(store, ProfilesToAdd(c, id), id, true, now);
      assert afterAdd[k] == if ext.testMatch(Some(ProfilesToAdd(c, id)), store[k]) then SegmentUpdated(store[k], id, true, now) else store[k];
      SegmentPassesAgree(store[k], c, id, ext.testMatch, now);
      assert PassOn(afterAdd, ProfilesToRemove(c, id), id, false, now)[k] == AfterSegmentPasses(store[k], c, id, ext.testMatch, now);
    }

    // -------------------------------------------------------------------------------------------
    // Past-event counts.

    /** The store after the batches of one aggregation: each batch whose update does not throw
        writes the count under the key for the profiles it holds. */
    function PastEventsApplied(store: map<string, Profile>, batches: seq<seq<PastEventEntry>>, propertyKey: string, now: int)
      : (r: map<string, Profile>)
      ensures r.Keys == store.Keys
    {
      if |batches| == 0 then store
      else
        var n := |batches| - 1;
        var s := PastEventsApplied(store, batches[..n], propertyKey, now);
        if ext.pastEventBatchThrows(batches[n]) then s else ApplyPastEvents(s, batches[n], ext.pastEventFailed, propertyKey, now)
    }

    /** updateProfilesWithPastEventProperty: the entries are cut into batches as they are iterated,
        each batch is sent when full or at the end, and the count is what the batches that did not
        throw held. */
    method UpdateProfilesWithPastEventProperty(entries: seq<PastEventEntry>, propertyKey: string, now: int) returns (count: int)
      modifies this`profiles
      ensures count == SubmittedCount(PastEventBatches(entries, config.segmentUpdateBatchSize), ext.pastEventBatchThrows)
      ensures profiles == PastEventsApplied(old(profiles), PastEventBatches(entries, config.segmentUpdateBatchSize), propertyKey, now)
    {
      var size := config.segmentUpdateBatchSize;
      var store := profiles;
      count := 0;
      var batch: seq<PastEventEntry> := [];
      ghost var done: seq<seq<PastEventEntry>> := [];
      var k := 0;
      while k < |entries|
        invariant 0 <= k <= |entries|
        invariant PastEventBatches(entries, size) == done + BatchesFrom(entries, size, k, batch)
        invariant count == SubmittedCount(done, ext.pastEventBatchThrows)
        invariant profiles == old(profiles)
        invariant store == PastEventsApplied(profiles, done, propertyKey, now)
      {
        var entry := entries[k];
        if !Skipped(entry.0) {
          batch := batch + [entry];
        }
        if |batch| == size || (k == |entries| - 1 && |batch| > 0) {
          AppendAssoc(done, [batch], BatchesFrom(entries, size, k + 1, []));
          assert (done + [batch])[..|done|] == done;
          if !ext.pastEventBatchThrows(batch) {
            store := ApplyPastEvents(store, batch, ext.pastEventFailed, propertyKey, now);
            count := count + |batch|;
          }
          done := done + [batch];
          batch := [];
        }
        k := k + 1;
      }
      assert PastEventBatches(entries, size) == done;
      profiles := store;
    }

    /** The store after the past-event update of every partition from 0 to m - 1 of n. */
    function PartitionsApplied(store: map<string, Profile>, query: Condition, n: int, m: nat, propertyKey: string, now: int)
      : (r: map<string, Profile>)
      ensures r.Keys == store.Keys
    {
      if m == 0 then store
      else PastEventsApplied(PartitionsApplied(store, query, n, m - 1, propertyKey, now),
                             PastEventBatches(ext.aggregatePartition(query, m - 1, n), config.segmentUpdateBatchSize), propertyKey, now)
    }

    /** A past-event update writes no segment membership. */
    lemma {:induction false} PastEventsKeepSegments(store: map<string, Profile>, batches: seq<seq<PastEventEntry>>, propertyKey: string, now: int)
      ensures SameSegments(store, PastEventsApplied(store, batches, propertyKey, now))
    {
      if |batches| > 0 {
        var n := |batches| - 1;
        PastEventsKeepSegments(store, batches[..n], propertyKey, now);
        PastEventsKeepMemberships(PastEventsApplied(store, batches[..n], propertyKey, now), batches[n], ext.pastEventFailed, propertyKey, now);
      }
    }

    lemma {:induction false} PartitionsKeepSegments(store: map<string, Profile>, query: Condition, n: int, m: nat, propertyKey: string, now: int)
      ensures SameSegments(store, PartitionsApplied(store, query, n, m, propertyKey, now))
    {
      if m > 0 {
        var s := PartitionsApplied(store, query, n, m - 1, propertyKey, now);
        PartitionsKeepSegments(store, query, n, m - 1, propertyKey, now);
        PastEventsKeepSegments(s, PastEventBatches(ext.aggregatePartition(query, m - 1, n), config.segmentUpdateBatchSize), propertyKey, now);
      }
    }

    function PartitionsCount(query: Condition, n: int, m: nat): int {
      if m == 0 then 0
      else PartitionsCount(query, n, m - 1) +
           SubmittedCount(PastEventBatches(ext.aggregatePartition(query, m - 1, n), config.segmentUpdateBatchSize), ext.pastEventBatchThrows)
    }

    /** The key a backfill writes: the generatedPropertyKey the parent has been stamped with. */
    function PropertyKey(parent: Condition): string
      requires StrParameter(parent, GeneratedPropertyKeyParam).Some?
    {
      StrParameter(parent, GeneratedPropertyKeyParam).value
    }

    /** updateExistingProfilesForPastEventCondition on the store, and its count: without partitions
        the event condition alone is aggregated; otherwise the past-event query's cardinality fixes
        the number of partitions, and a zero bucket size throws. */
    function PastEventResult(store: map<string, Profile>, eventCondition: Condition, parent: Condition, now: int)
      : (r: Result<(map<string, Profile>, int)>)
      requires StrParameter(parent, GeneratedPropertyKeyParam).Some?
      ensures r.Err? <==> !config.pastEventsDisablePartitions && config.aggregateQueryBucketSize == 0
      ensures r.Err? ==> r.error == ArithmeticError
      ensures r.Ok? ==> SameSegments(store, r.value.0)
    {
      var key := PropertyKey(parent);
      if config.pastEventsDisablePartitions then
        var batches := PastEventBatches(ext.aggregate(eventCondition, config.maximumIdsQueryCount), config.segmentUpdateBatchSize);
        PastEventsKeepSegments(store, batches, key, now);
        Ok((PastEventsApplied(store, batches, key, now), SubmittedCount(batches, ext.pastEventBatchThrows)))
      else
        var query := PastEventQuery(eventCondition, parent);
        match PartitionCount(ext.cardinality(query), config.aggregateQueryBucketSize)
        case Err(e) => Err(e)
        case Ok(n) =>
          var m := if n > 0 then n else 0;
          PartitionsKeepSegments(store, query, n, m, key, now);
          Ok((PartitionsApplied(store, query, n, m, key, now), PartitionsCount(query, n, m)))
    }

    /** updateExistingProfilesForPastEventCondition. */
    method UpdateExistingProfilesForPastEventCondition(eventCondition: Condition, parent: Condition, now: int)
      returns (r: Result<int>)
      requires StrParameter(parent, GeneratedPropertyKeyParam).Some?
      modifies this`profiles
      ensures var expected := PastEventResult(old(profiles), eventCondition, parent, now);
              && (r.Err? <==> expected.Err?)
              && (r.Err? ==> r.error == expected.error && profiles == old(profiles))
              && (r.Ok? ==> profiles == expected.value.0 && r.value == expected.value.1)
    {
      var propertyKey := PropertyKey(parent);
      if config.pastEventsDisablePartitions {
        var entries := ext.aggregate(eventCondition, config.maximumIdsQueryCount);
        var count := UpdateProfilesWithPastEventProperty(entries, propertyKey, now);
        return Ok(count);
      }
      var andCondition := PastEventQuery(eventCondition, parent);
      var card := ext.cardinality(andCondition);
      var numParts := PartitionCount(card, config.aggregateQueryBucketSize);
      if numParts.Err? {
        return Err(numParts.error);
      }
      var count := UpdatePartitions(andCondition, numParts.value, propertyKey, now);
      return Ok(count);
    }

    /** The loop over the partitions of the aggregation, each updated in turn. */
    method UpdatePartitions(query: Condition, n: int, propertyKey: string, now: int) returns (count: int)
      modifies this`profiles
      ensures var m := if n > 0 then n else 0;
              && profiles == PartitionsApplied(old(profiles), query, n, m, propertyKey, now)
              && count == PartitionsCount(query, n, m)
    {
      var m: nat := if n > 0 then n else 0;
      count := 0;
      var i: nat := 0;
      while i < m
        invariant i <= m
        invariant profiles == PartitionsApplied(old(profiles), query, n, i, propertyKey, now)
        invariant count == PartitionsCount(query, n, i)
      {
        var entries := ext.aggregatePartition(query, i, n);
        var updated := UpdateProfilesWithPastEventProperty(entries, propertyKey, now);
        count := count + updated;
        i := i + 1;
      }
    }

    // -------------------------------------------------------------------------------------------
    // Auto-generated rules.

    /** persistenceService.query("linkedItems", itemId): the stored rules linked to the item. */
    method QueryLinkedRules(itemId: string) returns (rs: seq<Rule>)
      requires Valid()
      ensures DistinctIds(rs)
      ensures forall x :: x in rs <==> x.metadata.id in rules && rules[x.metadata.id] == x && itemId in x.linkedItems
    {
      rs := [];
      var remaining := rules.Keys;
      while remaining != {}
        invariant remaining <= rules.Keys
        invariant DistinctIds(rs)
        invariant forall x :: x in rs ==> x.metadata.id !in remaining
        invariant forall x :: x in rs <==> x.metadata.id in rules && x.metadata.id !in remaining &&
                                           rules[x.metadata.id] == x && itemId in x.linkedItems
        decreases remaining
      {
        var id :| id in remaining;
        var rule := rules[id];
        if itemId in rule.linkedItems {
          rs := rs + [rule];
        }
        remaining := remaining - {id};
      }
    }

    /** clearAutoGeneratedRules over the loaded rules, in order. */
    method ClearAutoGeneratedRules(loaded: seq<Rule>, itemId: string)
      modifies this`rules
      ensures rules == ClearedRules(old(rules), loaded, itemId)
      ensures StoreKeyed(old(rules)) ==> StoreKeyed(rules)
    {
      var store := rules;
      ghost var start := rules;
      var k := 0;
      while k < |loaded|
        invariant 0 <= k <= |loaded|
        invariant store == ClearedRules(start, loaded[..k], itemId)
        invariant StoreKeyed(start) ==> StoreKeyed(store)
      {
        assert loaded[..k + 1][..k] == loaded[..k];
        ghost var before := store;
        var previousRule := loaded[k];
        var links := RemoveFirst(previousRule.linkedItems, itemId);
        var id := previousRule.metadata.id;
        if links == [] {
          store := store - {id};
        } else if id in store {
          store := store[id := store[id].(linkedItems := links)];
        }
        ClearOneCases(before, previousRule, itemId);
        ClearOneKeyed(before, previousRule, itemId);
        k := k + 1;
      }
      assert loaded[..k] == loaded;
      rules := store;
    }

    /** rulesService.setRule for each derived rule, in order. */
    method SaveRules(derived: seq<Rule>)
      modifies this`rules
      ensures rules == SavedRules(old(rules), derived)
      ensures StoreKeyed(old(rules)) ==> StoreKeyed(rules)
    {
      var store := rules;
      ghost var start := rules;
      var k := 0;
      while k < |derived|
        invariant 0 <= k <= |derived|
        invariant store == SavedRules(start, derived[..k])
        invariant StoreKeyed(start) ==> StoreKeyed(store)
      {
        assert derived[..k + 1][..k] == derived[..k];
        store := store[derived[k].metadata.id := derived[k]];
        k := k + 1;
      }
      assert derived[..k] == derived;
      rules := store;
    }

    /** A past-event update throws on its first call when partitions are on with a zero bucket
        size, and then for every backfill alike. */
    predicate BackfillsThrow(bs: seq<Backfill>) {
      |bs| > 0 && !config.pastEventsDisablePartitions && config.aggregateQueryBucketSize == 0
    }

    predicate Stamped(bs: seq<Backfill>) {
      forall i :: 0 <= i < |bs| ==> StrParameter(bs[i].parent, GeneratedPropertyKeyParam).Some?
    }

    /** The store after the backfills of a walk, in order. */
    function BackfillsApplied(store: map<string, Profile>, bs: seq<Backfill>, now: int): (r: map<string, Profile>)
      requires Stamped(bs) && !BackfillsThrow(bs)
      ensures SameSegments(store, r)
    {
      if |bs| == 0 then store
      else
        var n := |bs| - 1;
        var b := bs[n];
        PastEventResult(BackfillsApplied(store, bs[..n], now), b.eventCondition, b.parent, now).value.0
    }

    /** The backfills the walk of a definition requests for its new rules, each under a parent
        stamped with its generated key. */
    method RunBackfills(bs: seq<Backfill>, now: int) returns (r: Result<()>)
      requires Stamped(bs)
      modifies this`profiles
      ensures r.Err? <==> BackfillsThrow(bs)
      ensures r.Err? ==> r.error == ArithmeticError && profiles == old(profiles)
      ensures r.Ok? ==> profiles == BackfillsApplied(old(profiles), bs, now)
    {
      var k := 0;
      while k < |bs|
        invariant 0 <= k <= |bs|
        invariant k > 0 ==> !BackfillsThrow(bs)
        invariant !BackfillsThrow(bs) ==> profiles == BackfillsApplied(old(profiles), bs[..k], now)
        invariant BackfillsThrow(bs) ==> k == 0 && profiles == old(profiles)
      {
        assert bs[..k + 1][..k] == bs[..k];
        var res := UpdateExistingProfilesForPastEventCondition(bs[k].eventCondition, bs[k].parent, now);
        if res.Err? {
          return Err(res.error);
        }
        k := k + 1;
      }
      assert bs[..k] == bs;
      r := Ok(());
    }

    lemma StampedBackfills(bs: seq<Backfill>)
      requires BackfillsOk(bs)
      ensures Stamped(bs)
    {
      forall i | 0 <= i < |bs| ensures StrParameter(bs[i].parent, GeneratedPropertyKeyParam).Some? {
        assert BackfillOk(bs[i]);
      }
    }

    /** The walk of a definition's condition from its root, against the current rule store. */
    function RootWalk(md: Metadata, c: Condition, store: map<string, Rule>): Result<Walked> {
      WalkNode(WalkContext(md, store, ext.serialize, ext.md5), c, None)
    }

    /** updateAutoGeneratedRules: derive the condition's rules (running the backfills of the new
        ones), save them, and clear the item from the rules it linked before and no longer
        derives. The condition comes back stamped with the generated keys. */
    method UpdateAutoGeneratedRules(md: Metadata, condition: Option<Condition>, now: int)
      returns (r: Result<Option<Condition>>)
      requires Valid()
      modifies this`rules, this`profiles
      ensures Valid()
      ensures condition.None? ==> r == Ok(None) && profiles == old(profiles) && rules == RuleUpdate(old(rules), [], md.id)
      ensures condition.Some? ==>
                var w := RootWalk(md, condition.value, old(rules));
                && (w.Err? <==> IsTrigger(condition.value))
                && (r.Err? <==> w.Err? || BackfillsThrow(w.value.backfills))
                && (r.Err? ==> rules == old(rules))
                && (r.Err? && IsTrigger(condition.value) ==> r.error == NullParentCondition && profiles == old(profiles))
                && (r.Err? && !IsTrigger(condition.value) ==> r.error == ArithmeticError && profiles == old(profiles))
                && (r.Ok? ==>
                      && r.value == Some(w.value.condition)
                      && Stamped(w.value.backfills)
                      && profiles == BackfillsApplied(old(profiles), w.value.backfills, now)
                      && rules == RuleUpdate(old(rules), Rules(w.value.drafts), md.id))
      ensures condition.Some? ==>
                var e := ElementStep(old(rules), old(profiles), md, condition.value, now);
                && (r.Err? <==> e.Err?)
                && (r.Err? ==> r.error == e.error)
                && (r.Ok? ==> r.value == Some(e.value.2) && rules == e.value.0 && profiles == e.value.1)
    {
      var previous := QueryLinkedRules(md.id);
      var derived: seq<Rule> := [];
      var stamped: Option<Condition> := None;
      ghost var store := rules;
      if condition.Some? {
        var d := DeriveRules(md, condition.value, now);
        if d.Err? {
          return Err(d.error);
        }
        derived, stamped := d.value.0, Some(d.value.1);
      }
      SaveRules(derived);
      ClearAutoGeneratedRules(NotRederived(previous, derived), md.id);
      UpdateRulesMatches(store, previous, derived, md.id);
      r := Ok(stamped);
    }

    /** The first half of updateAutoGeneratedRules for a non-null condition: the walk from the root
        and the backfills of the new rules; the rules it derives and the stamped condition. */
    method DeriveRules(md: Metadata, condition: Condition, now: int) returns (r: Result<(seq<Rule>, Condition)>)
      requires Valid()
      modifies this`profiles
      ensures var w := RootWalk(md, condition, rules);
              && (w.Err? <==> IsTrigger(condition))
              && (r.Err? <==> w.Err? || BackfillsThrow(w.value.backfills))
              && (r.Err? && IsTrigger(condition) ==> r.error == NullParentCondition && profiles == old(profiles))
              && (r.Err? && !IsTrigger(condition) ==> r.error == ArithmeticError && profiles == old(profiles))
              && (r.Ok? ==>
                    && r.value == (Rules(w.value.drafts), w.value.condition)
                    && Stamped(w.value.backfills)
                    && profiles == BackfillsApplied(old(profiles), w.value.backfills, now))
    {
      var ctx := WalkContext(md, rules, ext.serialize, ext.md5);
      RootWalkFailsIffTrigger(ctx, condition);
      var w := GetAutoGeneratedRules(ctx, condition, None);
      if w.Err? {
        return Err(w.error);
      }
      WalkNodeFacts(ctx, condition, None);
      StampedBackfills(w.value.backfills);
      var res := RunBackfills(w.value.backfills, now);
      if res.Err? {
        return Err(res.error);
      }
      r := Ok((Rules(w.value.drafts), w.value.condition));
    }

    /** updateAutoGeneratedRules on the stores for one non-null condition: the rules, the profiles
        after the backfills, and the stamped condition. */
    function ElementStep(store: map<string, Rule>, profileStore: map<string, Profile>, md: Metadata, c: Condition, now: int)
      : (r: Result<(map<string, Rule>, map<string, Profile>, Condition)>)
      requires StoreKeyed(store)
      ensures r.Ok? ==> StoreKeyed(r.value.0) && SameSegments(profileStore, r.value.1)
      ensures RootWalk(md, c, store).Err? <==> IsTrigger(c)
      ensures r.Err? <==> RootWalk(md, c, store).Err? || BackfillsThrow(RootWalk(md, c, store).value.backfills)
    {
      var ctx := WalkContext(md, store, ext.serialize, ext.md5);
      RootWalkFailsIffTrigger(ctx, c);
      var w := RootWalk(md, c, store);
      if w.Err? then Err(w.error)
      else if BackfillsThrow(w.value.backfills) then Err(ArithmeticError)
      else
        WalkNodeFacts(ctx, c, None);
        StampedBackfills(w.value.backfills);
        Ok((RuleUpdate(store, Rules(w.value.drafts), md.id), BackfillsApplied(profileStore, w.value.backfills, now), w.value.condition))
    }

    // -------------------------------------------------------------------------------------------
    // Saving a segment.

    /** An enabled segment whose condition is null or fails the store's validation is refused. */
    predicate Rejected(segment: Segment) {
      segment.metadata.enabled && (segment.condition.None? || !ext.isValidCondition(segment.condition))
    }

    /** The gate and the rule derivation of setSegmentDefinition: the rules, the profiles after the
        backfills, and the segment as saved. */
    function SegmentPrepared(segment: Segment, store: map<string, Rule>, profileStore: map<string, Profile>, now: int)
      : (r: Result<(map<string, Rule>, map<string, Profile>, Segment)>)
      requires StoreKeyed(store)
      ensures r.Ok? ==> StoreKeyed(r.value.0) && SameSegments(profileStore, r.value.1)
      ensures r.Ok? ==> r.value.2.metadata == segment.metadata && (segment.condition.Some? <==> r.value.2.condition.Some?)
    {
      if Rejected(segment) then Err(BadSegmentCondition)
      else if !segment.metadata.enabled || segment.metadata.missingPlugins then Ok((store, profileStore, segment))
      else
        match ElementStep(store, profileStore, segment.metadata, segment.condition.value, now)
        case Err(e) => Err(e)
        case Ok((rs, ps, c)) => Ok((rs, ps, segment.(condition := Some(c))))
    }

    /** The refusals of setSegmentDefinition, and where each comes from. */
    lemma SegmentPreparedFails(segment: Segment, store: map<string, Rule>, profileStore: map<string, Profile>, now: int)
      requires StoreKeyed(store)
      ensures var r := SegmentPrepared(segment, store, profileStore, now);
              && (r.Err? && r.error == BadSegmentCondition <==> Rejected(segment))
              && (r.Err? <==>
                    || Rejected(segment)
                    || (&& segment.metadata.enabled && !segment.metadata.missingPlugins
                        && var w := RootWalk(segment.metadata, segment.condition.value, store);
                           w.Err? || BackfillsThrow(w.value.backfills)))
              && (r.Err? && !Rejected(segment) ==> r.error == NullParentCondition || r.error == ArithmeticError)
              && (!segment.metadata.enabled || segment.metadata.missingPlugins ==>
                    (r.Ok? <==> !Rejected(segment)))
    {
      if !Rejected(segment) && segment.metadata.enabled && !segment.metadata.missingPlugins {
        var c := segment.condition.value;
        var ctx := WalkContext(segment.metadata, store, ext.serialize, ext.md5);
        RootWalkFailsIffTrigger(ctx, c);
      }
    }

    /** setSegmentDefinition: an enabled segment is validated and, unless plugins are missing, its
        rules are derived (stamping its condition); the segment is saved under its id and the
        profiles are brought in line with it. The cache is not touched. */
    method SetSegmentDefinition(segment: Segment, now: int)
      returns (r: Result<Segment>, ghost added: seq<string>, ghost removed: seq<string>)
      requires Valid()
      modifies this`segments, this`rules, this`profiles, this`events
      ensures Valid()
      ensures profiles.Keys == old(profiles).Keys
      ensures var prep := SegmentPrepared(segment, old(rules), old(profiles), now);
              && (prep.Err? ==> r == Err(prep.error) && segments == old(segments) && events == old(events))
              && (prep.Err? && prep.error == BadSegmentCondition ==> rules == old(rules) && profiles == old(profiles))
              && (prep.Ok? ==>
                    var saved := prep.value.2;
                    && rules == prep.value.0
                    && segments == old(segments)[segment.metadata.id := saved]
                    && (r.Err? ==> r.error.RetriesExhausted? && Exhausts(r.error.profileId))
                    && (r.Ok? ==>
                          && r.value == saved
                          && profiles == SegmentSettled(prep.value.1, saved, now)
                          && IdsIn(added, old(profiles)) && IdsIn(removed, old(profiles))
                          && events == old(events) + SegmentSent(prep.value.1, saved, added, removed, now)))
    {
      added, removed := [], [];
      var saved := segment;
      if segment.metadata.enabled {
        if segment.condition.None? || !ext.isValidCondition(segment.condition) {
          return Err(BadSegmentCondition), added, removed;
        }
        if !segment.metadata.missingPlugins {
          var res := UpdateAutoGeneratedRules(segment.metadata, segment.condition, now);
          if res.Err? {
            return Err(res.error), added, removed;
          }
          saved := segment.(condition := res.value);
        }
      }
      segments := segments[saved.metadata.id := saved];
      var res;
      res, added, removed := UpdateExistingProfilesForSegment(saved, now);
      if res.Err? {
        return Err(res.error), added, removed;
      }
      r := Ok(saved);
    }

    // -------------------------------------------------------------------------------------------
    // Saving a scoring.

    /** updateAutoGeneratedRules once per element, in order, each call against the stores the
        previous one left: the rules, the profiles and the elements with their conditions stamped. */
    function ElementsStep(store: map<string, Rule>, profileStore: map<string, Profile>, md: Metadata,
                          es: seq<ScoringElement>, now: int)
      : (r: Result<(map<string, Rule>, map<string, Profile>, seq<ScoringElement>)>)
      requires StoreKeyed(store)
      ensures r.Ok? ==> StoreKeyed(r.value.0) && SameSegments(profileStore, r.value.1)
      ensures r.Ok? ==> |r.value.2| == |es| && forall i :: 0 <= i < |es| ==> r.value.2[i].value == es[i].value
    {
      if |es| == 0 then Ok((store, profileStore, []))
      else
        var n := |es| - 1;
        match ElementsStep(store, profileStore, md, es[..n], now)
        case Err(e) => Err(e)
        case Ok((rs, ps, done)) =>
          match ElementStep(rs, ps, md, es[n].condition, now)
          case Err(e) => Err(e)
          case Ok((rs', ps', c)) => Ok((rs', ps', done + [es[n].(condition := c)]))
    }

    /** The rule derivation of setScoringDefinition: for an enabled scoring without missing plugins,
        one rule update per element. */
    function ScoringPrepared(scoring: Scoring, store: map<string, Rule>, profileStore: map<string, Profile>, now: int)
      : (r: Result<(map<string, Rule>, map<string, Profile>, Scoring)>)
      requires StoreKeyed(store)
      ensures r.Ok? ==> StoreKeyed(r.value.0) && SameSegments(profileStore, r.value.1)
      ensures r.Ok? ==> r.value.2.metadata == scoring.metadata && |r.value.2.elements| == |scoring.elements|
    {
      if !scoring.metadata.enabled || scoring.metadata.missingPlugins then Ok((store, profileStore, scoring))
      else
        match ElementsStep(store, profileStore, scoring.metadata, scoring.elements, now)
        case Err(e) => Err(e)
        case Ok((rs, ps, es)) => Ok((rs, ps, scoring.(elements := es)))
    }

    /** A trigger-free condition is saved as it is. */
    lemma ElementStepTriggerFree(store: map<string, Rule>, profileStore: map<string, Profile>, md: Metadata, c: Condition, now: int)
      requires StoreKeyed(store)
      ensures TriggerFree(c) ==> ElementStep(store, profileStore, md, c, now).Ok? && ElementStep(store, profileStore, md, c, now).value.2 == c
    {
      if TriggerFree(c) {
        WalkTriggerFree(WalkContext(md, store, ext.serialize, ext.md5), c, None);
      }
    }

    /** One rule update for a definition links any other item no more often than the store did. */
    lemma ElementStepLinks(store: map<string, Rule>, profileStore: map<string, Profile>, md: Metadata, c: Condition, now: int,
                           other: string, n: nat)
      requires StoreKeyed(store) && LinkedAtMost(store, other, n) && md.id != other
      ensures ElementStep(store, profileStore, md, c, now).Ok? ==> LinkedAtMost(ElementStep(store, profileStore, md, c, now).value.0, other, n)
    {
      var ctx := WalkContext(md, store, ext.serialize, ext.md5);
      var w := RootWalk(md, c, store);
      if w.Ok? {
        WalkNodeFacts(ctx, c, None);
        DraftsLinkedAtMost(ctx, w.value.drafts, other, n);
        RuleUpdateLinkedAtMost(store, Rules(w.value.drafts), md.id, other, n);
      }
    }

    lemma {:induction false} ElementsStepLinks(store: map<string, Rule>, profileStore: map<string, Profile>, md: Metadata,
                                               es: seq<ScoringElement>, now: int, other: string, n: nat)
      requires StoreKeyed(store) && LinkedAtMost(store, other, n) && md.id != other
      ensures ElementsStep(store, profileStore, md, es, now).Ok? ==> LinkedAtMost(ElementsStep(store, profileStore, md, es, now).value.0, other, n)
      decreases |es|
    {
      if |es| > 0 {
        var k := |es| - 1;
        ElementsStepLinks(store, profileStore, md, es[..k], now, other, n);
        var front := ElementsStep(store, profileStore, md, es[..k], now);
        if front.Ok? {
          ElementStepLinks(front.value.0, front.value.1, md, es[k].condition, now, other, n);
        }
      }
    }

    /** The segment setSegmentDefinition saves keeps the metadata, keeps or lacks a condition as
        the given one does, and is the given one unless its condition is walked; a disabled
        segment leaves the rules and profiles alone. */
    lemma SegmentPreparedSaved(segment: Segment, store: map<string, Rule>, profileStore: map<string, Profile>, now: int)
      requires StoreKeyed(store)
      ensures var r := SegmentPrepared(segment, store, profileStore, now);
              && (r.Ok? ==> SegmentSaved(r.value.2, segment))
              && (!segment.metadata.enabled ==> r == Ok((store, profileStore, segment)))
    {
      if segment.condition.Some? {
        ElementStepTriggerFree(store, profileStore, segment.metadata, segment.condition.value, now);
      }
    }

    /** Saving a segment links any other item no more often than the store did. */
    lemma SegmentPreparedLinks(segment: Segment, store: map<string, Rule>, profileStore: map<string, Profile>, now: int,
                               other: string, n: nat)
      requires StoreKeyed(store) && LinkedAtMost(store, other, n) && segment.metadata.id != other
      ensures SegmentPrepared(segment, store, profileStore, now).Ok? ==>
                LinkedAtMost(SegmentPrepared(segment, store, profileStore, now).value.0, other, n)
    {
      if !Rejected(segment) && segment.metadata.enabled && !segment.metadata.missingPlugins {
        ElementStepLinks(store, profileStore, segment.metadata, segment.condition.value, now, other, n);
      }
    }

    /** The scoring setScoringDefinition saves keeps the metadata and every element's value, and
        is the given one when disabled or missing plugins; a disabled scoring leaves the rules and
        profiles alone. */
    lemma ScoringPreparedSaved(scoring: Scoring, store: map<string, Rule>, profileStore: map<string, Profile>, now: int)
      requires StoreKeyed(store)
      ensures var r := ScoringPrepared(scoring, store, profileStore, now);
              && (r.Ok? ==> ScoringSaved(r.value.2, scoring))
              && (!scoring.metadata.enabled ==> r == Ok((store, profileStore, scoring)))
    {
    }

    /** Saving a scoring links any other item no more often than the store did. */
    lemma ScoringPreparedLinks(scoring: Scoring, store: map<string, Rule>, profileStore: map<string, Profile>, now: int,
                               other: string, n: nat)
      requires StoreKeyed(store) && LinkedAtMost(store, other, n) && scoring.metadata.id != other
      ensures ScoringPrepared(scoring, store, profileStore, now).Ok? ==>
                LinkedAtMost(ScoringPrepared(scoring, store, profileStore, now).value.0, other, n)
    {
      if scoring.metadata.enabled && !scoring.metadata.missingPlugins {
        ElementsStepLinks(store, profileStore, scoring.metadata, scoring.elements, now, other, n);
      }
    }

    /** Each call of updateAutoGeneratedRules clears the item from the rules it linked before and
        does not derive again: a rule only the first of two elements derives, linked to the scoring
        alone, is gone after the second. */
    lemma LaterElementUnlinksEarlier(store: map<string, Rule>, first: seq<Rule>, second: seq<Rule>, itemId: string, k: string)
      requires StoreKeyed(store)
      requires Rederived(first, k) && !Rederived(second, k)
      requires forall i :: 0 <= i < |first| && first[i].metadata.id == k ==> first[i].linkedItems == [itemId]
      requires k !in store
      ensures k !in RuleUpdate(RuleUpdate(store, first, itemId), second, itemId)
    {
      var i :| 0 <= i < |first| && first[i].metadata.id == k;
      var j := LastWith(first, k, i);
      SavedRulesLast(store, first, j);
      var once := RuleUpdate(store, first, itemId);
      assert once[k] == first[j];
      assert Unlinks(once, second, itemId, k);
    }

    /** The last position of a rule with the id, at or after i. */
    function LastWith(rs: seq<Rule>, k: string, i: nat): (j: nat)
      requires i < |rs| && rs[i].metadata.id == k
      ensures i <= j < |rs| && rs[j].metadata.id == k
      ensures forall m :: j < m < |rs| ==> rs[m].metadata.id != k
      decreases |rs| - i
    {
      if exists m :: i < m < |rs| && rs[m].metadata.id == k then
        var m :| i < m < |rs| && rs[m].metadata.id == k;
        LastWith(rs, k, m)
      else i
    }

    /** Once an element's rule update throws, the walk of the elements throws the same error. */
    lemma {:induction false} ElementsStepFailsOn(store: map<string, Rule>, profileStore: map<string, Profile>, md: Metadata,
                                                 es: seq<ScoringElement>, k: nat, now: int)
      requires StoreKeyed(store) && k <= |es|
      requires ElementsStep(store, profileStore, md, es[..k], now).Err?
      ensures ElementsStep(store, profileStore, md, es, now) == ElementsStep(store, profileStore, md, es[..k], now)
      decreases |es|
    {
      if k < |es| {
        var n := |es| - 1;
        assert es[..n][..k] == es[..k];
        ElementsStepFailsOn(store, profileStore, md, es[..n], k, now);
      } else {
        assert es[..k] == es;
      }
    }

    /** The loop of setScoringDefinition over the elements. */
    method DeriveElementRules(md: Metadata, es: seq<ScoringElement>, now: int) returns (r: Result<seq<ScoringElement>>)
      requires Valid()
      modifies this`rules, this`profiles
      ensures Valid()
      ensures profiles.Keys == old(profiles).Keys
      ensures var e := ElementsStep(old(rules), old(profiles), md, es, now);
              && (r.Err? <==> e.Err?)
              && (r.Err? ==> r.error == e.error)
              && (r.Ok? ==> r.value == e.value.2 && rules == e.value.0 && profiles == e.value.1)
    {
      var done: seq<ScoringElement> := [];
      var k := 0;
      while k < |es|
        invariant 0 <= k <= |es|
        invariant Valid()
        invariant ElementsStep(old(rules), old(profiles), md, es[..k], now) == Ok((rules, profiles, done))
      {
        assert es[..k + 1][..k] == es[..k];
        var element := es[k];
        var res := UpdateAutoGeneratedRules(md, Some(element.condition), now);
        if res.Err? {
          ElementsStepFailsOn(old(rules), old(profiles), md, es, k + 1, now);
          return Err(res.error);
        }
        done := done + [element.(condition := res.value.value)];
        k := k + 1;
      }
      assert es[..k] == es;
      r := Ok(done);
    }

    /** setScoringDefinition: for an enabled scoring without missing plugins, the rules of every
        element are derived in turn (stamping its condition); the scoring is saved under its id and
        the scores are recomputed by updateExistingProfilesForScoring. */
    method SetScoringDefinition(scoring: Scoring, now: int) returns (r: Result<Scoring>)
      requires Valid()
      modifies this`scorings, this`rules, this`profiles, this`scripts
      ensures Valid()
      ensures profiles.Keys == old(profiles).Keys
      ensures var prep := ScoringPrepared(scoring, old(rules), old(profiles), now);
              && (r.Err? <==> prep.Err?)
              && (r.Err? ==> r.error == prep.error && scorings == old(scorings) && scripts == old(scripts))
              && (r.Ok? ==>
                    && r.value == prep.value.2
                    && rules == prep.value.0 && profiles == prep.value.1
                    && scorings == old(scorings)[scoring.metadata.id := r.value]
                    && scripts == old(scripts) + [ScoringScripts(r.value)])
    {
      var saved := scoring;
      if scoring.metadata.enabled && !scoring.metadata.missingPlugins {
        var res := DeriveElementRules(scoring.metadata, scoring.elements, now);
        if res.Err? {
          return Err(res.error);
        }
        saved := scoring.(elements := res.value);
      }
      scorings := scorings[saved.metadata.id := saved];
      UpdateExistingProfilesForScoring(saved);
      r := Ok(saved);
    }

    /** updateExistingProfilesForScoring: the script array of the scoring, in slot order. */
    method UpdateExistingProfilesForScoring(scoring: Scoring)
      modifies this`scripts
      ensures scripts == old(scripts) + [ScoringScripts(scoring)]
    {
      var id := scoring.metadata.id;
      var n := |scoring.elements|;
      var slots := new Option<ScriptStep>[n + 1](_ => None);
      slots[0] := Some(ResetScore(id, ScoreExistsQuery(id)));
      if scoring.metadata.enabled {
        var idx := 1;
        while idx <= n
          invariant 1 <= idx <= n + 1
          invariant scripts == old(scripts)
          invariant slots[0] == Some(ResetScore(id, ScoreExistsQuery(id)))
          invariant forall j :: 1 <= j < idx ==> slots[j] == Some(AddScore(id, scoring.elements[j - 1].value, scoring.elements[j - 1].condition))
          invariant forall j :: idx <= j <= n ==> slots[j] == None
        {
          var element := scoring.elements[idx - 1];
          slots[idx] := Some(AddScore(id, element.value, element.condition));
          idx := idx + 1;
        }
      }
      ScoringScriptsLayout(scoring, slots[..]);
      scripts := scripts + [slots[..]];
    }

    // -------------------------------------------------------------------------------------------
    // Dependents.

    /** getSegmentDependentSegments / getScoringDependentSegments over the cache. */
    method GetDependentSegments(t: Target) returns (idx: seq<nat>)
      ensures idx == SegmentDeps(allSegments, t)
    {
      idx := [];
      var k := 0;
      while k < |allSegments|
        invariant 0 <= k <= |allSegments|
        invariant idx == SegmentDeps(allSegments[..k], t)
      {
        assert allSegments[..k + 1][..k] == allSegments[..k];
        if Impacted(allSegments[k].condition, t) {
          idx := idx + [k];
        }
        k := k + 1;
      }
      assert allSegments[..k] == allSegments;
    }

    /** getSegmentDependentScorings / getScoringDependentScorings: the element loop stops at the
        first element that refers to the target. */
    method GetDependentScorings(t: Target) returns (idx: seq<nat>)
      ensures idx == ScoringDeps(allScoring, t)
    {
      idx := [];
      var k := 0;
      while k < |allScoring|
        invariant 0 <= k <= |allScoring|
        invariant idx == ScoringDeps(allScoring[..k], t)
      {
        assert allScoring[..k + 1][..k] == allScoring[..k];
        var scoring := allScoring[k];
        var e := 0;
        var impacted := false;
        while e < |scoring.elements|
          invariant 0 <= e <= |scoring.elements|
          invariant impacted <==> exists j :: 0 <= j < e && Impacted(Some(scoring.elements[j].condition), t)
          decreases |scoring.elements| - e, if impacted then 0 else 1
        {
          if Impacted(Some(scoring.elements[e].condition), t) {
            impacted := true;
            break;
          }
          e := e + 1;
        }
        if impacted {
          idx := idx + [k];
        }
        k := k + 1;
      }
      assert allScoring[..k] == allScoring;
    }

    /** getSegmentDependentMetadata / getScoringDependentMetadata. */
    method GetDependentMetadata(t: Target) returns (r: DependentMetadata)
      ensures r == DependentsOf(allSegments, allScoring, t)
    {
      var segmentIdx := GetDependentSegments(t);
      var scoringIdx := GetDependentScorings(t);
      r := MetadataAt(segmentIdx, scoringIdx);
    }

    /** The metadata of the cached definitions at the positions, in order. */
    method MetadataAt(segmentIdx: seq<nat>, scoringIdx: seq<nat>) returns (r: DependentMetadata)
      requires InRange(segmentIdx, |allSegments|) && InRange(scoringIdx, |allScoring|)
      ensures r == DependentMetadata(SegmentsMetadata(allSegments, segmentIdx), ScoringsMetadata(allScoring, scoringIdx))
    {
      var segs: seq<Metadata> := [];
      var k := 0;
      while k < |segmentIdx|
        invariant 0 <= k <= |segmentIdx|
        invariant segs == SegmentsMetadata(allSegments, segmentIdx[..k])
      {
        segs := segs + [allSegments[segmentIdx[k]].metadata];
        k := k + 1;
      }
      var scs: seq<Metadata> := [];
      k := 0;
      while k < |scoringIdx|
        invariant 0 <= k <= |scoringIdx|
        invariant scs == ScoringsMetadata(allScoring, scoringIdx[..k])
      {
        scs := scs + [allScoring[scoringIdx[k]].metadata];
        k := k + 1;
      }
      assert segmentIdx[..|segmentIdx|] == segmentIdx;
      assert scoringIdx[..|scoringIdx|] == scoringIdx;
      r := DependentMetadata(segs, scs);
    }

    // -------------------------------------------------------------------------------------------
    // Removing a definition.

    /** clearAutoGeneratedRules(persistenceService.query("linkedItems", itemId), itemId). */
    method ClearLinkedRules(itemId: string)
      requires Valid()
      modifies this`rules
      ensures Valid()
      ensures rules == RuleUpdate(old(rules), [], itemId)
    {
      var previousRules := QueryLinkedRules(itemId);
      ClearAutoGeneratedRules(previousRules, itemId);
      NotRederivedNothing(previousRules);
      UpdateRulesMatches(old(rules), previousRules, [], itemId);
    }

    /** The profile update of removeSegmentDefinition: every member of the segment is updated to
        leave it, in one batch when there are members and batching is on, or one by one. */
    method StripSegment(segmentId: string, now: int) returns (r: Result<()>)
      modifies this`profiles
      ensures profiles.Keys == old(profiles).Keys
      ensures r.Ok? <==> !config.batchSegmentProfileUpdate ||
                         forall id :: id in Matching(old(profiles), MembershipQuery(segmentId)) ==> !Exhausts(id)
      ensures r.Err? ==> r.error.RetriesExhausted? && Exhausts(r.error.profileId)
      ensures r.Ok? ==> profiles == Pass(old(profiles), Matching(old(profiles), MembershipQuery(segmentId)), segmentId, false, now)
    {
      var previousProfiles := QueryProfiles(MembershipQuery(segmentId));
      if config.batchSegmentProfileUpdate && |previousProfiles| > 0 {
        r := BatchUpdateProfilesSegment(segmentId, previousProfiles, false, now);
      } else if config.batchSegmentProfileUpdate {
        assert SetOf(previousProfiles) == {};
        PassIs(profiles, {}, segmentId, false, now, profiles);
        r := Ok(());
      } else {
        UpdateOneByOne(previousProfiles, segmentId, false, now);
        r := Ok(());
      }
    }

    /** With a matcher that reads membership as it is and updates that all land, the stripped
        store holds no member of the segment. */
    lemma StripClears(store: map<string, Profile>, segmentId: string, now: int)
      requires Compositional(ext.testMatch) && forall x :: Lands(x)
      ensures var after := Pass(store, Matching(store, MembershipQuery(segmentId)), segmentId, false, now);
              forall k :: k in after ==> segmentId !in after[k].segments
    {
      var ids := Matching(store, MembershipQuery(segmentId));
      forall k | k in store ensures segmentId !in Pass(store, ids, segmentId, false, now)[k].segments {
        PassTouchesOnlySegment(store, ids, segmentId, false, now, k);
      }
    }

    /** Saving a segment over profiles that kept every membership keeps every membership but
        the segment's own. */
    lemma SettledKeepsOthers(before: map<string, Profile>, store: map<string, Profile>, segment: Segment, now: int,
                             after: map<string, Profile>, id: string)
      requires SameSegments(before, store) && (segment.metadata.enabled ==> segment.condition.Some?)
      requires after == SegmentSettled(store, segment, now) && id == segment.metadata.id
      ensures forall x :: x != id ==> KeepsMembership(before, after, x)
    {
      forall x | x != id
        ensures KeepsMembership(before, after, x)
      {
        SegmentSettledKeeps(store, segment, now, x);
        KeepsMembershipTrans(before, store, SegmentSettled(store, segment, now), x);
      }
    }

    /** The segment passes of a save change no membership but the segment's own. */
    lemma SegmentSettledKeeps(store: map<string, Profile>, segment: Segment, now: int, x: string)
      requires segment.metadata.enabled ==> segment.condition.Some?
      requires x != segment.metadata.id
      ensures KeepsMembership(store, SegmentSettled(store, segment, now), x)
    {
      var id := segment.metadata.id;
      if segment.metadata.enabled {
        var c := segment.condition.value;
        var mid := PassOn(store, ProfilesToAdd(c, id), id, true, now);
        PassOnKeeps(store, ProfilesToAdd(c, id), id, true, now, x);
        PassOnKeeps(mid, ProfilesToRemove(c, id), id, false, now, x);
      } else {
        PassOnKeeps(store, MembershipQuery(id), id, false, now, x);
      }
    }

    lemma PassKeeps(store: map<string, Profile>, ids: set<string>, segmentId: string, isAdd: bool, now: int, x: string)
      requires x != segmentId
      ensures KeepsMembership(store, Pass(store, ids, segmentId, isAdd, now), x)
    {
      forall k | k in store ensures x in Pass(store, ids, segmentId, isAdd, now)[k].segments <==> x in store[k].segments {
        PassTouchesOnlySegment(store, ids, segmentId, isAdd, now, k);
      }
    }

    lemma PassOnKeeps(store: map<string, Profile>, query: Condition, segmentId: string, isAdd: bool, now: int, x: string)
      requires x != segmentId
      ensures KeepsMembership(store, PassOn(store, query, segmentId, isAdd, now), x)
    {
      if config.segmentUpdateBatchSize > 0 {
        PassKeeps(store, Matching(store, query), segmentId, isAdd, now, x);
      }
    }
    // -------------------------------------------------------------------------------------------
    // Rewriting the dependents of a removed definition.

    /** The stores the removal writes. */
    function Persisted(): Stores
      reads this
    {
      Stores(rules, profiles, segments, scorings, scripts)
    }

    /** One dependent segment of a removal, on the stores: the segment with the reference
        rewritten away, its rules cleared when nothing is left of its condition, saved as
        setSegmentDefinition saves it, and the profiles brought in line with the saved form. Err
        when the save is refused. */
    function SegmentStep(d: Segment, t: Target, st: Stores, now: int): (r: Result<(Stores, Segment)>)
      requires StoreKeyed(st.rules)
      ensures r.Ok? ==> StoreKeyed(r.value.0.rules) && SegmentSaved(r.value.1, SegmentRewrite(d, t))
      ensures r.Ok? ==> && r.value.1.metadata.id == d.metadata.id
                        && r.value.0.segments == st.segments[d.metadata.id := r.value.1]
                        && r.value.0.scorings == st.scorings && r.value.0.scripts == st.scripts
                        && r.value.0.profiles.Keys == st.profiles.Keys
    {
      var s := SegmentRewrite(d, t);
      var store := if Emptied(d, t) then RuleUpdate(st.rules, [], d.metadata.id) else st.rules;
      SegmentPreparedSaved(s, store, st.profiles, now);
      match SegmentPrepared(s, store, st.profiles, now)
      case Err(e) => Err(e)
      case Ok((rs, ps, saved)) =>
        Ok((st.(rules := rs, profiles := SegmentSettled(ps, saved, now), segments := st.segments[saved.metadata.id := saved]), saved))
    }

    /** The dependent segments, one after the other; the first refused save ends the loop. */
    function SegmentSteps(ds: seq<Segment>, t: Target, st: Stores, now: int): (r: Result<(Stores, seq<Segment>)>)
      requires StoreKeyed(st.rules)
      ensures r.Ok? ==> StoreKeyed(r.value.0.rules) && |r.value.1| == |ds|
      decreases |ds|
    {
      if |ds| == 0 then Ok((st, []))
      else
        var n := |ds| - 1;
        match SegmentSteps(ds[..n], t, st, now)
        case Err(e) => Err(e)
        case Ok((a, saved)) =>
          match SegmentStep(ds[n], t, a, now)
          case Err(e) => Err(e)
          case Ok((b, last)) => Ok((b, saved + [last]))
    }

    /** Every segment the loop saves is the rewrite of its dependent, as saving settles it. */
    lemma {:induction false} SegmentStepsSaved(ds: seq<Segment>, t: Target, st: Stores, now: int)
      requires StoreKeyed(st.rules)
      ensures var r := SegmentSteps(ds, t, st, now);
              r.Ok? ==> SegmentsSaved(r.value.1, ds, t)
      decreases |ds|
    {
      if |ds| > 0 {
        var n := |ds| - 1;
        SegmentStepsSaved(ds[..n], t, st, now);
        SegmentStepsLast(ds, t, st, now);
        var r := SegmentSteps(ds, t, st, now);
        if r.Ok? {
          SegmentsSavedSnoc(SegmentSteps(ds[..n], t, st, now).value.1, ds, r.value.1[n], t);
        }
      }
    }

    /** A loop that went through ended with a step that went through, after a shorter loop that did. */
    lemma SegmentStepsLast(ds: seq<Segment>, t: Target, st: Stores, now: int)
      requires StoreKeyed(st.rules) && |ds| > 0
      ensures var r := SegmentSteps(ds, t, st, now);
              var f := SegmentSteps(ds[..|ds| - 1], t, st, now);
              r.Ok? ==> && f.Ok? && r.value.1 == f.value.1 + [r.value.1[|ds| - 1]]
                        && SegmentSaved(r.value.1[|ds| - 1], SegmentRewrite(ds[|ds| - 1], t))
                        && r.value.0.segments == f.value.0.segments[ds[|ds| - 1].metadata.id := r.value.1[|ds| - 1]]
    {
    }

    /** A loop over one dependent more is the shorter loop followed by the step of the last. */
    lemma SegmentStepsSnoc(ds: seq<Segment>, n: nat, t: Target, st: Stores, now: int,
                         f: Result<(Stores, seq<Segment>)>, step: Result<(Stores, Segment)>)
      requires StoreKeyed(st.rules) && n + 1 == |ds|
      requires f == SegmentSteps(ds[..n], t, st, now) && f.Ok?
      requires step == SegmentStep(ds[n], t, f.value.0, now) && step.Ok?
      ensures SegmentSteps(ds, t, st, now) == Ok((step.value.0, f.value.1 + [step.value.1]))
    {
    }

    /** Each of saved is the saved rewrite of the dependent at the same position. */
    predicate SegmentsSaved(saved: seq<Segment>, ds: seq<Segment>, t: Target) {
      |saved| == |ds| && forall j :: 0 <= j < |ds| ==> SegmentSaved(saved[j], SegmentRewrite(ds[j], t))
    }

    lemma SegmentsSavedSnoc(saved: seq<Segment>, ds: seq<Segment>, last: Segment, t: Target)
      requires |ds| > 0 && SegmentsSaved(saved, ds[..|ds| - 1], t) && SegmentSaved(last, SegmentRewrite(ds[|ds| - 1], t))
      ensures SegmentsSaved(saved + [last], ds, t)
    {
      PairwiseSnoc((a: Segment, b: Segment) => SegmentSaved(a, SegmentRewrite(b, t)), saved, ds, last);
    }

    /** One dependent scoring of a removal, on the stores: the scoring keeping the elements whose
        condition survives the rewrite, its rules cleared when none is left, saved as
        setScoringDefinition saves it, with its script array submitted. */
    function ScoringStep(d: Scoring, t: Target, st: Stores, now: int): (r: Result<(Stores, Scoring)>)
      requires StoreKeyed(st.rules)
      ensures r.Ok? ==> StoreKeyed(r.value.0.rules) && ScoringSaved(r.value.1, ScoringRewrite(d, t))
      ensures r.Ok? ==> && r.value.1.metadata.id == d.metadata.id
                        && r.value.0.scorings == st.scorings[d.metadata.id := r.value.1]
                        && r.value.0.segments == st.segments && r.value.0.scripts == st.scripts + [ScoringScripts(r.value.1)]
                        && SameSegments(st.profiles, r.value.0.profiles)
    {
      var s := ScoringRewrite(d, t);
      var store := if s.elements == [] then RuleUpdate(st.rules, [], d.metadata.id) else st.rules;
      ScoringPreparedSaved(s, store, st.profiles, now);
      match ScoringPrepared(s, store, st.profiles, now)
      case Err(e) => Err(e)
      case Ok((rs, ps, saved)) =>
        Ok((st.(rules := rs, profiles := ps, scorings := st.scorings[saved.metadata.id := saved],
                scripts := st.scripts + [ScoringScripts(saved)]), saved))
    }

    /** The dependent scorings, one after the other; the first refused save ends the loop. */
    function ScoringSteps(cs: seq<Scoring>, t: Target, st: Stores, now: int): (r: Result<(Stores, seq<Scoring>)>)
      requires StoreKeyed(st.rules)
      ensures r.Ok? ==> StoreKeyed(r.value.0.rules) && |r.value.1| == |cs|
      decreases |cs|
    {
      if |cs| == 0 then Ok((st, []))
      else
        var n := |cs| - 1;
        match ScoringSteps(cs[..n], t, st, now)
        case Err(e) => Err(e)
        case Ok((a, saved)) =>
          match ScoringStep(cs[n], t, a, now)
          case Err(e) => Err(e)
          case Ok((b, last)) => Ok((b, saved + [last]))
    }

    /** Every scoring the loop saves is the rewrite of its dependent, as saving settles it. */
    lemma {:induction false} ScoringStepsSaved(cs: seq<Scoring>, t: Target, st: Stores, now: int)
      requires StoreKeyed(st.rules)
      ensures var r := ScoringSteps(cs, t, st, now);
              r.Ok? ==> ScoringsSaved(r.value.1, cs, t)
      decreases |cs|
    {
      if |cs| > 0 {
        var n := |cs| - 1;
        ScoringStepsSaved(cs[..n], t, st, now);
        ScoringStepsLast(cs, t, st, now);
        var r := ScoringSteps(cs, t, st, now);
        if r.Ok? {
          ScoringsSavedSnoc(ScoringSteps(cs[..n], t, st, now).value.1, cs, r.value.1[n], t);
        }
      }
    }

    /** A loop that went through ended with a step that went through, after a shorter loop that did. */
    lemma ScoringStepsLast(cs: seq<Scoring>, t: Target, st: Stores, now: int)
      requires StoreKeyed(st.rules) && |cs| > 0
      ensures var r := ScoringSteps(cs, t, st, now);
              var f := ScoringSteps(cs[..|cs| - 1], t, st, now);
              r.Ok? ==> && f.Ok? && r.value.1 == f.value.1 + [r.value.1[|cs| - 1]]
                        && ScoringSaved(r.value.1[|cs| - 1], ScoringRewrite(cs[|cs| - 1], t))
                        && r.value.0.scorings == f.value.0.scorings[cs[|cs| - 1].metadata.id := r.value.1[|cs| - 1]]
    {
    }

    /** A loop over one dependent more is the shorter loop followed by the step of the last. */
    lemma ScoringStepsSnoc(cs: seq<Scoring>, n: nat, t: Target, st: Stores, now: int,
                         f: Result<(Stores, seq<Scoring>)>, step: Result<(Stores, Scoring)>)
      requires StoreKeyed(st.rules) && n + 1 == |cs|
      requires f == ScoringSteps(cs[..n], t, st, now) && f.Ok?
      requires step == ScoringStep(cs[n], t, f.value.0, now) && step.Ok?
      ensures ScoringSteps(cs, t, st, now) == Ok((step.value.0, f.value.1 + [step.value.1]))
    {
    }

    /** Each of saved is the saved rewrite of the dependent at the same position. */
    predicate ScoringsSaved(saved: seq<Scoring>, cs: seq<Scoring>, t: Target) {
      |saved| == |cs| && forall j :: 0 <= j < |cs| ==> ScoringSaved(saved[j], ScoringRewrite(cs[j], t))
    }

    lemma ScoringsSavedSnoc(saved: seq<Scoring>, cs: seq<Scoring>, last: Scoring, t: Target)
      requires |cs| > 0 && ScoringsSaved(saved, cs[..|cs| - 1], t) && ScoringSaved(last, ScoringRewrite(cs[|cs| - 1], t))
      ensures ScoringsSaved(saved + [last], cs, t)
    {
      PairwiseSnoc((a: Scoring, b: Scoring) => ScoringSaved(a, ScoringRewrite(b, t)), saved, cs, last);
    }

    /** The dependent segments and then the dependent scorings of a removal, rewritten and saved
        in order; with the saved dependents. */
    function DependentsRewritten(ds: seq<Segment>, cs: seq<Scoring>, t: Target, st: Stores, now: int)
      : (r: Result<(Stores, seq<Segment>, seq<Scoring>)>)
      requires StoreKeyed(st.rules)
      ensures r.Ok? ==> StoreKeyed(r.value.0.rules) && |r.value.1| == |ds| && |r.value.2| == |cs|
    {
      match SegmentSteps(ds, t, st, now)
      case Err(e) => Err(e)
      case Ok((a, saved)) =>
        match ScoringSteps(cs, t, a, now)
        case Err(e) => Err(e)
        case Ok((b, savedScorings)) => Ok((b, saved, savedScorings))
    }

    /** removeSegmentDefinition past the validation gate, on the stores: the members leave the
        segment, the dependents are rewritten and saved, the segment is removed and the rules
        linked to it are cleared; with the saved dependents. */
    function SegmentRemoval(segmentId: string, ds: seq<Segment>, cs: seq<Scoring>, st: Stores, now: int)
      : (r: Result<(Stores, seq<Segment>, seq<Scoring>)>)
      requires StoreKeyed(st.rules)
      ensures r.Ok? ==> StoreKeyed(r.value.0.rules) && |r.value.1| == |ds| && |r.value.2| == |cs|
    {
      var stripped := st.(profiles := Pass(st.profiles, Matching(st.profiles, MembershipQuery(segmentId)), segmentId, false, now));
      match DependentsRewritten(ds, cs, SegmentTarget(segmentId), stripped, now)
      case Err(e) => Err(e)
      case Ok((b, saved, savedScorings)) =>
        Ok((b.(segments := b.segments - {segmentId}, rules := RuleUpdate(b.rules, [], segmentId)), saved, savedScorings))
    }

    /** removeScoringDefinition past the validation gate, on the stores: the reset script is
        submitted, the dependents are rewritten and saved, the scoring is removed and the rules
        linked to it are cleared; with the saved dependents. */
    function ScoringRemoval(scoringId: string, ds: seq<Segment>, cs: seq<Scoring>, st: Stores, now: int)
      : (r: Result<(Stores, seq<Segment>, seq<Scoring>)>)
      requires StoreKeyed(st.rules)
      ensures r.Ok? ==> StoreKeyed(r.value.0.rules) && |r.value.1| == |ds| && |r.value.2| == |cs|
    {
      var reset := st.(scripts := st.scripts + [RemovedScoringScripts(scoringId)]);
      match DependentsRewritten(ds, cs, ScoringTarget(scoringId), reset, now)
      case Err(e) => Err(e)
      case Ok((b, saved, savedScorings)) =>
        Ok((b.(scorings := b.scorings - {scoringId}, rules := RuleUpdate(b.rules, [], scoringId)), saved, savedScorings))
    }

    /** The segment steps write only the rules, the profiles (keeping their ids) and the segments. */
    lemma {:induction false} SegmentStepsKeep(ds: seq<Segment>, t: Target, st: Stores, now: int)
      requires StoreKeyed(st.rules)
      ensures var r := SegmentSteps(ds, t, st, now);
              r.Ok? ==>
                && r.value.0.scorings == st.scorings && r.value.0.scripts == st.scripts
                && r.value.0.profiles.Keys == st.profiles.Keys
      decreases |ds|
    {
      if |ds| > 0 {
        SegmentStepsKeep(ds[..|ds| - 1], t, st, now);
      }
    }

    /** A segment entry whose id no dependent has is as it was. */
    lemma {:induction false} SegmentStepsOther(ds: seq<Segment>, t: Target, st: Stores, now: int, k: string)
      requires StoreKeyed(st.rules)
      requires forall j :: 0 <= j < |ds| ==> ds[j].metadata.id != k
      ensures var r := SegmentSteps(ds, t, st, now);
              r.Ok? ==>
                && (k in r.value.0.segments <==> k in st.segments)
                && (k in st.segments ==> r.value.0.segments[k] == st.segments[k])
      decreases |ds|
    {
      if |ds| > 0 {
        SegmentStepsOther(ds[..|ds| - 1], t, st, now, k);
      }
    }

    /** The segment store holds a saved dependent under its id unless a later dependent has the
        same id. */
    lemma {:induction false} SegmentStepsStored(ds: seq<Segment>, t: Target, st: Stores, now: int, j: nat)
      requires StoreKeyed(st.rules) && j < |ds|
      requires forall m :: j < m < |ds| ==> ds[m].metadata.id != ds[j].metadata.id
      ensures var r := SegmentSteps(ds, t, st, now);
              r.Ok? ==> ds[j].metadata.id in r.value.0.segments && r.value.0.segments[ds[j].metadata.id] == r.value.1[j]
      decreases |ds|
    {
      var n := |ds| - 1;
      SegmentStepsLast(ds, t, st, now);
      if j < n {
        SegmentLaterIds(ds, j, n);
        SegmentStepsStored(ds[..n], t, st, now, j);
      }
      var r, f := SegmentSteps(ds, t, st, now), SegmentSteps(ds[..n], t, st, now);
      if r.Ok? {
        SegmentStoredSnoc(r.value.0.segments, f.value.0.segments, r.value.1, f.value.1, ds, j, n);
      }
    }

    /** The ids after position j, within the first n dependents. */
    lemma SegmentLaterIds(ds: seq<Segment>, j: nat, n: nat)
      requires n == |ds| - 1 && j < n && forall m :: j < m < |ds| ==> ds[m].metadata.id != ds[j].metadata.id
      ensures forall m :: j < m < |ds[..n]| ==> ds[..n][m].metadata.id != ds[..n][j].metadata.id
    {
    }

    /** The store step of SegmentStepsStored, on values. */
    lemma SegmentStoredSnoc(rsc: map<string, Segment>, fsc: map<string, Segment>, rsaved: seq<Segment>, fsaved: seq<Segment>,
                            ds: seq<Segment>, j: nat, n: nat)
      requires n == |ds| - 1 && j <= n && |rsaved| == |ds|
      requires forall m :: j < m < |ds| ==> ds[m].metadata.id != ds[j].metadata.id
      requires rsc == fsc[ds[n].metadata.id := rsaved[n]] && rsaved == fsaved + [rsaved[n]]
      requires j < n ==> ds[..n][j].metadata.id in fsc && fsc[ds[..n][j].metadata.id] == fsaved[j]
      ensures ds[j].metadata.id in rsc && rsc[ds[j].metadata.id] == rsaved[j]
    {
      if j < n {
        assert ds[..n][j] == ds[j];
        assert rsaved[j] == fsaved[j];
      }
    }

    /** The scoring steps write only the rules, the profiles (keeping their segments), the scripts
        (appending to them) and the scorings. */
    lemma {:induction false} ScoringStepsKeep(cs: seq<Scoring>, t: Target, st: Stores, now: int)
      requires StoreKeyed(st.rules)
      ensures var r := ScoringSteps(cs, t, st, now);
              r.Ok? ==>
                && r.value.0.segments == st.segments && SameSegments(st.profiles, r.value.0.profiles)
                && st.scripts <= r.value.0.scripts
      decreases |cs|
    {
      if |cs| > 0 {
        ScoringStepsKeep(cs[..|cs| - 1], t, st, now);
      }
    }

    /** A scoring entry whose id no dependent has is as it was. */
    lemma {:induction false} ScoringStepsOther(cs: seq<Scoring>, t: Target, st: Stores, now: int, k: string)
      requires StoreKeyed(st.rules)
      requires forall j :: 0 <= j < |cs| ==> cs[j].metadata.id != k
      ensures var r := ScoringSteps(cs, t, st, now);
              r.Ok? ==>
                && (k in r.value.0.scorings <==> k in st.scorings)
                && (k in st.scorings ==> r.value.0.scorings[k] == st.scorings[k])
      decreases |cs|
    {
      if |cs| > 0 {
        ScoringStepsOther(cs[..|cs| - 1], t, st, now, k);
      }
    }

    /** The scoring store holds a saved dependent under its id unless a later dependent has the
        same id. */
    lemma {:induction false} ScoringStepsStored(cs: seq<Scoring>, t: Target, st: Stores, now: int, j: nat)
      requires StoreKeyed(st.rules) && j < |cs|
      requires forall m :: j < m < |cs| ==> cs[m].metadata.id != cs[j].metadata.id
      ensures var r := ScoringSteps(cs, t, st, now);
              r.Ok? ==> cs[j].metadata.id in r.value.0.scorings && r.value.0.scorings[cs[j].metadata.id] == r.value.1[j]
      decreases |cs|
    {
      var n := |cs| - 1;
      ScoringStepsLast(cs, t, st, now);
      if j < n {
        ScoringLaterIds(cs, j, n);
        ScoringStepsStored(cs[..n], t, st, now, j);
      }
      var r, f := ScoringSteps(cs, t, st, now), ScoringSteps(cs[..n], t, st, now);
      if r.Ok? {
        ScoringStoredSnoc(r.value.0.scorings, f.value.0.scorings, r.value.1, f.value.1, cs, j, n);
      }
    }

    /** The ids after position j, within the first n dependents. */
    lemma ScoringLaterIds(cs: seq<Scoring>, j: nat, n: nat)
      requires n == |cs| - 1 && j < n && forall m :: j < m < |cs| ==> cs[m].metadata.id != cs[j].metadata.id
      ensures forall m :: j < m < |cs[..n]| ==> cs[..n][m].metadata.id != cs[..n][j].metadata.id
    {
    }

    /** The store step of ScoringStepsStored, on values. */
    lemma ScoringStoredSnoc(rsc: map<string, Scoring>, fsc: map<string, Scoring>, rsaved: seq<Scoring>, fsaved: seq<Scoring>,
                            cs: seq<Scoring>, j: nat, n: nat)
      requires n == |cs| - 1 && j <= n && |rsaved| == |cs|
      requires forall m :: j < m < |cs| ==> cs[m].metadata.id != cs[j].metadata.id
      requires rsc == fsc[cs[n].metadata.id := rsaved[n]] && rsaved == fsaved + [rsaved[n]]
      requires j < n ==> cs[..n][j].metadata.id in fsc && fsc[cs[..n][j].metadata.id] == fsaved[j]
      ensures cs[j].metadata.id in rsc && rsc[cs[j].metadata.id] == rsaved[j]
    {
      if j < n {
        assert cs[..n][j] == cs[j];
        assert rsaved[j] == fsaved[j];
      }
    }

    /** Dependents with other ids link an item no more often than the store did. */
    lemma {:induction false} SegmentStepsLinks(ds: seq<Segment>, t: Target, st: Stores, now: int, e: string, n: nat)
      requires StoreKeyed(st.rules) && LinkedAtMost(st.rules, e, n)
      requires forall j :: 0 <= j < |ds| ==> ds[j].metadata.id != e
      ensures SegmentSteps(ds, t, st, now).Ok? ==> LinkedAtMost(SegmentSteps(ds, t, st, now).value.0.rules, e, n)
      decreases |ds|
    {
      if |ds| > 0 {
        var m := |ds| - 1;
        SegmentStepsLinks(ds[..m], t, st, now, e, n);
        var front := SegmentSteps(ds[..m], t, st, now);
        if front.Ok? {
          SegmentStepLinks(ds[m], t, front.value.0, now, e, n);
        }
      }
    }

    lemma SegmentStepLinks(d: Segment, t: Target, st: Stores, now: int, e: string, n: nat)
      requires StoreKeyed(st.rules) && LinkedAtMost(st.rules, e, n) && d.metadata.id != e
      ensures SegmentStep(d, t, st, now).Ok? ==> LinkedAtMost(SegmentStep(d, t, st, now).value.0.rules, e, n)
    {
      var store := if Emptied(d, t) then RuleUpdate(st.rules, [], d.metadata.id) else st.rules;
      RuleUpdateLinkedAtMost(st.rules, [], d.metadata.id, e, n);
      SegmentPreparedLinks(SegmentRewrite(d, t), store, st.profiles, now, e, n);
    }

    lemma {:induction false} ScoringStepsLinks(cs: seq<Scoring>, t: Target, st: Stores, now: int, e: string, n: nat)
      requires StoreKeyed(st.rules) && LinkedAtMost(st.rules, e, n)
      requires forall j :: 0 <= j < |cs| ==> cs[j].metadata.id != e
      ensures ScoringSteps(cs, t, st, now).Ok? ==> LinkedAtMost(ScoringSteps(cs, t, st, now).value.0.rules, e, n)
      decreases |cs|
    {
      if |cs| > 0 {
        var m := |cs| - 1;
        ScoringStepsLinks(cs[..m], t, st, now, e, n);
        var front := ScoringSteps(cs[..m], t, st, now);
        if front.Ok? {
          ScoringStepLinks(cs[m], t, front.value.0, now, e, n);
        }
      }
    }

    lemma ScoringStepLinks(d: Scoring, t: Target, st: Stores, now: int, e: string, n: nat)
      requires StoreKeyed(st.rules) && LinkedAtMost(st.rules, e, n) && d.metadata.id != e
      ensures ScoringStep(d, t, st, now).Ok? ==> LinkedAtMost(ScoringStep(d, t, st, now).value.0.rules, e, n)
    {
      var s := ScoringRewrite(d, t);
      var store := if s.elements == [] then RuleUpdate(st.rules, [], d.metadata.id) else st.rules;
      RuleUpdateLinkedAtMost(st.rules, [], d.metadata.id, e, n);
      ScoringPreparedLinks(s, store, st.profiles, now, e, n);
    }

    /** A dependent segment left with no condition, linked at most once by every rule and sharing
        its id with no other dependent: after the steps no rule links it. */
    lemma {:induction false} SegmentStepsUnlinkEmptied(ds: seq<Segment>, t: Target, st: Stores, now: int, j: nat)
      requires StoreKeyed(st.rules) && j < |ds| && Emptied(ds[j], t)
      requires LinkedAtMost(st.rules, ds[j].metadata.id, 1)
      requires forall m :: 0 <= m < |ds| && m != j ==> ds[m].metadata.id != ds[j].metadata.id
      ensures SegmentSteps(ds, t, st, now).Ok? ==> LinkedAtMost(SegmentSteps(ds, t, st, now).value.0.rules, ds[j].metadata.id, 0)
      decreases |ds|
    {
      var e := ds[j].metadata.id;
      var m := |ds| - 1;
      var front := SegmentSteps(ds[..m], t, st, now);
      if j < m {
        assert ds[..m][j] == ds[j];
        assert forall q :: 0 <= q < m ==> ds[..m][q] == ds[q];
        SegmentStepsUnlinkEmptied(ds[..m], t, st, now, j);
        if front.Ok? {
          SegmentStepLinks(ds[m], t, front.value.0, now, e, 0);
        }
      } else {
        assert forall q :: 0 <= q < m ==> ds[..m][q] == ds[q];
        SegmentStepsLinks(ds[..m], t, st, now, e, 1);
        if front.Ok? {
          var a := front.value.0;
          ClearUnlinks(a.rules, e);
          SegmentPreparedSaved(SegmentRewrite(ds[j], t), RuleUpdate(a.rules, [], e), a.profiles, now);
        }
      }
    }

    /** The same for a dependent scoring left with no element. */
    lemma {:induction false} ScoringStepsUnlinkEmptied(cs: seq<Scoring>, t: Target, st: Stores, now: int, j: nat)
      requires StoreKeyed(st.rules) && j < |cs| && ScoringRewrite(cs[j], t).elements == []
      requires LinkedAtMost(st.rules, cs[j].metadata.id, 1)
      requires forall m :: 0 <= m < |cs| && m != j ==> cs[m].metadata.id != cs[j].metadata.id
      ensures ScoringSteps(cs, t, st, now).Ok? ==> LinkedAtMost(ScoringSteps(cs, t, st, now).value.0.rules, cs[j].metadata.id, 0)
      decreases |cs|
    {
      var e := cs[j].metadata.id;
      var m := |cs| - 1;
      var front := ScoringSteps(cs[..m], t, st, now);
      if j < m {
        assert cs[..m][j] == cs[j];
        assert forall q :: 0 <= q < m ==> cs[..m][q] == cs[q];
        ScoringStepsUnlinkEmptied(cs[..m], t, st, now, j);
        if front.Ok? {
          ScoringStepLinks(cs[m], t, front.value.0, now, e, 0);
        }
      } else {
        assert forall q :: 0 <= q < m ==> cs[..m][q] == cs[q];
        ScoringStepsLinks(cs[..m], t, st, now, e, 1);
        if front.Ok? {
          var a := front.value.0;
          ClearUnlinks(a.rules, e);
          ScoringPreparedSaved(ScoringRewrite(cs[j], t), RuleUpdate(a.rules, [], e), a.profiles, now);
        }
      }
    }

    /** What the rewrite of the dependents leaves in the stores: every saved dependent is the saved
        form of its rewrite, the profiles keep their ids and the scripts are only appended to. */
    lemma DependentsRewrittenSaved(ds: seq<Segment>, cs: seq<Scoring>, t: Target, st: Stores, now: int)
      requires StoreKeyed(st.rules)
      ensures var r := DependentsRewritten(ds, cs, t, st, now);
              r.Ok? ==>
                && r.value.0.profiles.Keys == st.profiles.Keys
                && st.scripts <= r.value.0.scripts
                && (forall j :: 0 <= j < |ds| ==> SegmentSaved(r.value.1[j], SegmentRewrite(ds[j], t)))
                && (forall j :: 0 <= j < |cs| ==> ScoringSaved(r.value.2[j], ScoringRewrite(cs[j], t)))
    {
      var first := SegmentSteps(ds, t, st, now);
      if first.Ok? {
        SegmentStepsKeep(ds, t, st, now);
        SegmentStepsSaved(ds, t, st, now);
        ScoringStepsKeep(cs, t, first.value.0, now);
        ScoringStepsSaved(cs, t, first.value.0, now);
      }
    }

    /** A saved dependent segment is stored under its id unless a later dependent has the same
        id; the entries of other ids are kept. */
    lemma DependentsRewrittenSegments(ds: seq<Segment>, cs: seq<Scoring>, t: Target, st: Stores, now: int)
      requires StoreKeyed(st.rules)
      ensures var r := DependentsRewritten(ds, cs, t, st, now);
              r.Ok? ==>
                && (forall j :: 0 <= j < |ds| && (forall m :: j < m < |ds| ==> ds[m].metadata.id != ds[j].metadata.id) ==>
                      ds[j].metadata.id in r.value.0.segments && r.value.0.segments[ds[j].metadata.id] == r.value.1[j])
                && (forall k :: k in st.segments && (forall m :: 0 <= m < |ds| ==> ds[m].metadata.id != k) ==>
                      k in r.value.0.segments && r.value.0.segments[k] == st.segments[k])
    {
      var first := SegmentSteps(ds, t, st, now);
      if first.Ok? {
        var a := first.value.0;
        ScoringStepsKeep(cs, t, a, now);
        forall j | 0 <= j < |ds| && (forall m :: j < m < |ds| ==> ds[m].metadata.id != ds[j].metadata.id)
          ensures ds[j].metadata.id in a.segments && a.segments[ds[j].metadata.id] == first.value.1[j]
        {
          SegmentStepsStored(ds, t, st, now, j);
        }
        forall k | k in st.segments && (forall m :: 0 <= m < |ds| ==> ds[m].metadata.id != k)
          ensures k in a.segments && a.segments[k] == st.segments[k]
        {
          SegmentStepsOther(ds, t, st, now, k);
        }
      }
    }

    /** A saved dependent scoring is stored under its id unless a later dependent has the same
        id; the entries of other ids are kept. */
    lemma DependentsRewrittenScorings(ds: seq<Segment>, cs: seq<Scoring>, t: Target, st: Stores, now: int)
      requires StoreKeyed(st.rules)
      ensures var r := DependentsRewritten(ds, cs, t, st, now);
              r.Ok? ==>
                && (forall j :: 0 <= j < |cs| && (forall m :: j < m < |cs| ==> cs[m].metadata.id != cs[j].metadata.id) ==>
                      cs[j].metadata.id in r.value.0.scorings && r.value.0.scorings[cs[j].metadata.id] == r.value.2[j])
                && (forall k :: k in st.scorings && (forall m :: 0 <= m < |cs| ==> cs[m].metadata.id != k) ==>
                      k in r.value.0.scorings && r.value.0.scorings[k] == st.scorings[k])
    {
      var first := SegmentSteps(ds, t, st, now);
      if first.Ok? {
        var a := first.value.0;
        SegmentStepsKeep(ds, t, st, now);
        var second := ScoringSteps(cs, t, a, now);
        if second.Ok? {
          forall j | 0 <= j < |cs| && (forall m :: j < m < |cs| ==> cs[m].metadata.id != cs[j].metadata.id)
            ensures cs[j].metadata.id in second.value.0.scorings && second.value.0.scorings[cs[j].metadata.id] == second.value.1[j]
          {
            ScoringStepsStored(cs, t, a, now, j);
          }
          forall k | k in st.scorings && (forall m :: 0 <= m < |cs| ==> cs[m].metadata.id != k)
            ensures k in second.value.0.scorings && second.value.0.scorings[k] == st.scorings[k]
          {
            ScoringStepsOther(cs, t, a, now, k);
          }
        }
      }
    }

    /** A dependent segment left with no condition, which every rule links at most once and whose
        id no other dependent has, is linked by no rule after the rewrite of the dependents. */
    lemma DependentsRewrittenUnlinkSegment(ds: seq<Segment>, cs: seq<Scoring>, t: Target, st: Stores, now: int, j: nat)
      requires StoreKeyed(st.rules) && j < |ds| && Emptied(ds[j], t)
      requires LinkedAtMost(st.rules, ds[j].metadata.id, 1)
      requires forall m :: 0 <= m < |ds| && m != j ==> ds[m].metadata.id != ds[j].metadata.id
      requires forall m :: 0 <= m < |cs| ==> cs[m].metadata.id != ds[j].metadata.id
      ensures var r := DependentsRewritten(ds, cs, t, st, now);
              r.Ok? ==> LinkedAtMost(r.value.0.rules, ds[j].metadata.id, 0)
    {
      SegmentStepsUnlinkEmptied(ds, t, st, now, j);
      var first := SegmentSteps(ds, t, st, now);
      if first.Ok? {
        ScoringStepsLinks(cs, t, first.value.0, now, ds[j].metadata.id, 0);
      }
    }

    /** The same for a dependent scoring left with no element. */
    lemma DependentsRewrittenUnlinkScoring(ds: seq<Segment>, cs: seq<Scoring>, t: Target, st: Stores, now: int, j: nat)
      requires StoreKeyed(st.rules) && j < |cs| && ScoringRewrite(cs[j], t).elements == []
      requires LinkedAtMost(st.rules, cs[j].metadata.id, 1)
      requires forall m :: 0 <= m < |cs| && m != j ==> cs[m].metadata.id != cs[j].metadata.id
      requires forall m :: 0 <= m < |ds| ==> ds[m].metadata.id != cs[j].metadata.id
      ensures var r := DependentsRewritten(ds, cs, t, st, now);
              r.Ok? ==> LinkedAtMost(r.value.0.rules, cs[j].metadata.id, 0)
    {
      SegmentStepsLinks(ds, t, st, now, cs[j].metadata.id, 1);
      var first := SegmentSteps(ds, t, st, now);
      if first.Ok? {
        ScoringStepsUnlinkEmptied(cs, t, first.value.0, now, j);
      }
    }

    /** An item no dependent is, which every rule links at most once, is linked at most once
        after the rewrite of the dependents. */
    lemma DependentsRewrittenLinks(ds: seq<Segment>, cs: seq<Scoring>, t: Target, st: Stores, now: int, e: string)
      requires StoreKeyed(st.rules) && LinkedAtMost(st.rules, e, 1)
      requires forall m :: 0 <= m < |ds| ==> ds[m].metadata.id != e
      requires forall m :: 0 <= m < |cs| ==> cs[m].metadata.id != e
      ensures var r := DependentsRewritten(ds, cs, t, st, now);
              r.Ok? ==> LinkedAtMost(r.value.0.rules, e, 1)
    {
      SegmentStepsLinks(ds, t, st, now, e, 1);
      var first := SegmentSteps(ds, t, st, now);
      if first.Ok? {
        ScoringStepsLinks(cs, t, first.value.0, now, e, 1);
      }
    }

    /** After removing a segment the store no longer holds it, the profiles keep their ids, and
        every saved dependent is the rewrite of the one read, as saving settles it. */
    lemma SegmentRemovalSaved(segmentId: string, ds: seq<Segment>, cs: seq<Scoring>, st: Stores, now: int)
      requires StoreKeyed(st.rules)
      ensures var r := SegmentRemoval(segmentId, ds, cs, st, now);
              var t := SegmentTarget(segmentId);
              r.Ok? ==>
                && segmentId !in r.value.0.segments
                && r.value.0.profiles.Keys == st.profiles.Keys
                && st.scripts <= r.value.0.scripts
                && (forall j :: 0 <= j < |ds| ==> SegmentSaved(r.value.1[j], SegmentRewrite(ds[j], t)))
                && (forall j :: 0 <= j < |cs| ==> ScoringSaved(r.value.2[j], ScoringRewrite(cs[j], t)))
    {
      var stripped := st.(profiles := Pass(st.profiles, Matching(st.profiles, MembershipQuery(segmentId)), segmentId, false, now));
      DependentsRewrittenSaved(ds, cs, SegmentTarget(segmentId), stripped, now);
    }

    /** After removing a segment each dependent segment whose id no later one has, and that is
        not the removed segment, is stored as saved, and every other segment but the removed one
        is as it was. */
    lemma SegmentRemovalSegments(segmentId: string, ds: seq<Segment>, cs: seq<Scoring>, st: Stores, now: int)
      requires StoreKeyed(st.rules)
      ensures var r := SegmentRemoval(segmentId, ds, cs, st, now);
              r.Ok? ==>
                && (forall j :: 0 <= j < |ds| && ds[j].metadata.id != segmentId &&
                                (forall m :: j < m < |ds| ==> ds[m].metadata.id != ds[j].metadata.id) ==>
                      ds[j].metadata.id in r.value.0.segments && r.value.0.segments[ds[j].metadata.id] == r.value.1[j])
                && (forall k :: k in st.segments && k != segmentId && (forall m :: 0 <= m < |ds| ==> ds[m].metadata.id != k) ==>
                      k in r.value.0.segments && r.value.0.segments[k] == st.segments[k])
    {
      var stripped := st.(profiles := Pass(st.profiles, Matching(st.profiles, MembershipQuery(segmentId)), segmentId, false, now));
      DependentsRewrittenSegments(ds, cs, SegmentTarget(segmentId), stripped, now);
      var dr := DependentsRewritten(ds, cs, SegmentTarget(segmentId), stripped, now);
      if dr.Ok? {
        SegmentsLeftAfterRemoval(dr.value.0.segments, dr.value.1, ds, st.segments, segmentId);
      }
    }

    /** Taking the removed segment out of the store keeps every other entry. */
    lemma SegmentsLeftAfterRemoval(segs: map<string, Segment>, saved: seq<Segment>, ds: seq<Segment>, before: map<string, Segment>, id: string)
      requires |saved| == |ds|
      requires forall j :: 0 <= j < |ds| && (forall m :: j < m < |ds| ==> ds[m].metadata.id != ds[j].metadata.id) ==>
                 ds[j].metadata.id in segs && segs[ds[j].metadata.id] == saved[j]
      requires forall k :: k in before && (forall m :: 0 <= m < |ds| ==> ds[m].metadata.id != k) ==> k in segs && segs[k] == before[k]
      ensures forall j :: 0 <= j < |ds| && ds[j].metadata.id != id &&
                          (forall m :: j < m < |ds| ==> ds[m].metadata.id != ds[j].metadata.id) ==>
                ds[j].metadata.id in segs - {id} && (segs - {id})[ds[j].metadata.id] == saved[j]
      ensures forall k :: k in before && k != id && (forall m :: 0 <= m < |ds| ==> ds[m].metadata.id != k) ==>
                k in segs - {id} && (segs - {id})[k] == before[k]
    {
      SegmentsLeftSaved(segs, saved, ds, id);
      SegmentsLeftKept(segs, ds, before, id);
    }

    lemma SegmentsLeftSaved(segs: map<string, Segment>, saved: seq<Segment>, ds: seq<Segment>, id: string)
      requires |saved| == |ds|
      requires forall j :: 0 <= j < |ds| && (forall m :: j < m < |ds| ==> ds[m].metadata.id != ds[j].metadata.id) ==>
                 ds[j].metadata.id in segs && segs[ds[j].metadata.id] == saved[j]
      ensures forall j :: 0 <= j < |ds| && ds[j].metadata.id != id &&
                          (forall m :: j < m < |ds| ==> ds[m].metadata.id != ds[j].metadata.id) ==>
                ds[j].metadata.id in segs - {id} && (segs - {id})[ds[j].metadata.id] == saved[j]
    {
    }

    lemma SegmentsLeftKept(segs: map<string, Segment>, ds: seq<Segment>, before: map<string, Segment>, id: string)
      requires forall k :: k in before && (forall m :: 0 <= m < |ds| ==> ds[m].metadata.id != k) ==> k in segs && segs[k] == before[k]
      ensures forall k :: k in before && k != id && (forall m :: 0 <= m < |ds| ==> ds[m].metadata.id != k) ==>
                k in segs - {id} && (segs - {id})[k] == before[k]
    {
    }

    /** After removing a segment each dependent scoring whose id no later one has is stored as
        saved, and every other scoring is as it was. */
    lemma SegmentRemovalScorings(segmentId: string, ds: seq<Segment>, cs: seq<Scoring>, st: Stores, now: int)
      requires StoreKeyed(st.rules)
      ensures var r := SegmentRemoval(segmentId, ds, cs, st, now);
              r.Ok? ==>
                && (forall j :: 0 <= j < |cs| && (forall m :: j < m < |cs| ==> cs[m].metadata.id != cs[j].metadata.id) ==>
                      cs[j].metadata.id in r.value.0.scorings && r.value.0.scorings[cs[j].metadata.id] == r.value.2[j])
                && (forall k :: k in st.scorings && (forall m :: 0 <= m < |cs| ==> cs[m].metadata.id != k) ==>
                      k in r.value.0.scorings && r.value.0.scorings[k] == st.scorings[k])
    {
      var stripped := st.(profiles := Pass(st.profiles, Matching(st.profiles, MembershipQuery(segmentId)), segmentId, false, now));
      DependentsRewrittenScorings(ds, cs, SegmentTarget(segmentId), stripped, now);
    }

    /** Every dependent segment left with no condition, linked at most once before and by no
        other dependent's id, is unlinked by the rewrite of the dependents. */
    lemma DependentsRewrittenUnlinkSegments(ds: seq<Segment>, cs: seq<Scoring>, t: Target, st: Stores, now: int)
      requires StoreKeyed(st.rules)
      ensures var r := DependentsRewritten(ds, cs, t, st, now);
              r.Ok? ==> EmptiedSegmentsUnlinked(st.rules, r.value.0.rules, ds, cs, t)
    {
      forall j | 0 <= j < |ds| && Emptied(ds[j], t) && LinkedAtMost(st.rules, ds[j].metadata.id, 1) &&
                 (forall m :: 0 <= m < |ds| && m != j ==> ds[m].metadata.id != ds[j].metadata.id) &&
                 (forall m :: 0 <= m < |cs| ==> cs[m].metadata.id != ds[j].metadata.id)
        ensures var r := DependentsRewritten(ds, cs, t, st, now);
                r.Ok? ==> LinkedAtMost(r.value.0.rules, ds[j].metadata.id, 0)
      {
        DependentsRewrittenUnlinkSegment(ds, cs, t, st, now, j);
      }
    }

    /** The same for the dependent scorings left with no element. */
    lemma DependentsRewrittenUnlinkScorings(ds: seq<Segment>, cs: seq<Scoring>, t: Target, st: Stores, now: int)
      requires StoreKeyed(st.rules)
      ensures var r := DependentsRewritten(ds, cs, t, st, now);
              r.Ok? ==> EmptiedScoringsUnlinked(st.rules, r.value.0.rules, ds, cs, t)
    {
      forall j | 0 <= j < |cs| && ScoringRewrite(cs[j], t).elements == [] && LinkedAtMost(st.rules, cs[j].metadata.id, 1) &&
                 (forall m :: 0 <= m < |cs| && m != j ==> cs[m].metadata.id != cs[j].metadata.id) &&
                 (forall m :: 0 <= m < |ds| ==> ds[m].metadata.id != cs[j].metadata.id)
        ensures var r := DependentsRewritten(ds, cs, t, st, now);
                r.Ok? ==> LinkedAtMost(r.value.0.rules, cs[j].metadata.id, 0)
      {
        DependentsRewrittenUnlinkScoring(ds, cs, t, st, now, j);
      }
    }

    /** Clearing the rules of a removed item unlinks nothing that was unlinked. */
    lemma ClearKeepsSegmentsUnlinked(before: map<string, Rule>, after: map<string, Rule>, itemId: string, ds: seq<Segment>, cs: seq<Scoring>, t: Target)
      requires EmptiedSegmentsUnlinked(before, after, ds, cs, t)
      ensures EmptiedSegmentsUnlinked(before, RuleUpdate(after, [], itemId), ds, cs, t)
    {
      forall j | 0 <= j < |ds| && Emptied(ds[j], t) && LinkedAtMost(before, ds[j].metadata.id, 1) &&
                 (forall m :: 0 <= m < |ds| && m != j ==> ds[m].metadata.id != ds[j].metadata.id) &&
                 (forall m :: 0 <= m < |cs| ==> cs[m].metadata.id != ds[j].metadata.id)
        ensures LinkedAtMost(RuleUpdate(after, [], itemId), ds[j].metadata.id, 0)
      {
        RuleUpdateLinkedAtMost(after, [], itemId, ds[j].metadata.id, 0);
      }
    }

    lemma ClearKeepsScoringsUnlinked(before: map<string, Rule>, after: map<string, Rule>, itemId: string, ds: seq<Segment>, cs: seq<Scoring>, t: Target)
      requires EmptiedScoringsUnlinked(before, after, ds, cs, t)
      ensures EmptiedScoringsUnlinked(before, RuleUpdate(after, [], itemId), ds, cs, t)
    {
      forall j | 0 <= j < |cs| && ScoringRewrite(cs[j], t).elements == [] && LinkedAtMost(before, cs[j].metadata.id, 1) &&
                 (forall m :: 0 <= m < |cs| && m != j ==> cs[m].metadata.id != cs[j].metadata.id) &&
                 (forall m :: 0 <= m < |ds| ==> ds[m].metadata.id != cs[j].metadata.id)
        ensures LinkedAtMost(RuleUpdate(after, [], itemId), cs[j].metadata.id, 0)
      {
        RuleUpdateLinkedAtMost(after, [], itemId, cs[j].metadata.id, 0);
      }
    }


    /** After removing a segment no rule links it any more, and no rule links a dependent that
        was emptied, as long as each was linked at most once by each rule and no other dependent
        shares its id. */
    lemma SegmentRemovalLinks(segmentId: string, ds: seq<Segment>, cs: seq<Scoring>, st: Stores, now: int)
      requires StoreKeyed(st.rules)
      ensures var r := SegmentRemoval(segmentId, ds, cs, st, now);
              var t := SegmentTarget(segmentId);
              r.Ok? ==>
                && (LinkedAtMost(st.rules, segmentId, 1) &&
                    (forall m :: 0 <= m < |ds| ==> ds[m].metadata.id != segmentId) &&
                    (forall m :: 0 <= m < |cs| ==> cs[m].metadata.id != segmentId) ==>
                      LinkedAtMost(r.value.0.rules, segmentId, 0))
                && EmptiedSegmentsUnlinked(st.rules, r.value.0.rules, ds, cs, t)
                && EmptiedScoringsUnlinked(st.rules, r.value.0.rules, ds, cs, t)
    {
      var t := SegmentTarget(segmentId);
      var stripped := st.(profiles := Pass(st.profiles, Matching(st.profiles, MembershipQuery(segmentId)), segmentId, false, now));
      var dr := DependentsRewritten(ds, cs, t, stripped, now);
      DependentsRewrittenUnlinkSegments(ds, cs, t, stripped, now);
      DependentsRewrittenUnlinkScorings(ds, cs, t, stripped, now);
      if dr.Ok? {
        var b := dr.value.0;
        if LinkedAtMost(st.rules, segmentId, 1) &&
           (forall m :: 0 <= m < |ds| ==> ds[m].metadata.id != segmentId) &&
           (forall m :: 0 <= m < |cs| ==> cs[m].metadata.id != segmentId) {
          DependentsRewrittenLinks(ds, cs, t, stripped, now, segmentId);
          ClearUnlinks(b.rules, segmentId);
        }
        assert stripped.rules == st.rules;
        ClearKeepsSegmentsUnlinked(st.rules, b.rules, segmentId, ds, cs, t);
        ClearKeepsScoringsUnlinked(st.rules, b.rules, segmentId, ds, cs, t);
      }
    }

    /** After removing a scoring the store no longer holds it, the reset script comes first, the
        profiles keep their ids, and every saved dependent is the rewrite of the one read. */
    lemma ScoringRemovalSaved(scoringId: string, ds: seq<Segment>, cs: seq<Scoring>, st: Stores, now: int)
      requires StoreKeyed(st.rules)
      ensures var r := ScoringRemoval(scoringId, ds, cs, st, now);
              var t := ScoringTarget(scoringId);
              r.Ok? ==>
                && scoringId !in r.value.0.scorings
                && r.value.0.profiles.Keys == st.profiles.Keys
                && st.scripts + [RemovedScoringScripts(scoringId)] <= r.value.0.scripts
                && (forall j :: 0 <= j < |ds| ==> SegmentSaved(r.value.1[j], SegmentRewrite(ds[j], t)))
                && (forall j :: 0 <= j < |cs| ==> ScoringSaved(r.value.2[j], ScoringRewrite(cs[j], t)))
    {
      var reset := st.(scripts := st.scripts + [RemovedScoringScripts(scoringId)]);
      DependentsRewrittenSaved(ds, cs, ScoringTarget(scoringId), reset, now);
    }

    /** After removing a scoring each dependent segment whose id no later one has is stored as
        saved, and every other segment is as it was. */
    lemma ScoringRemovalSegments(scoringId: string, ds: seq<Segment>, cs: seq<Scoring>, st: Stores, now: int)
      requires StoreKeyed(st.rules)
      ensures var r := ScoringRemoval(scoringId, ds, cs, st, now);
              r.Ok? ==>
                && (forall j :: 0 <= j < |ds| && (forall m :: j < m < |ds| ==> ds[m].metadata.id != ds[j].metadata.id) ==>
                      ds[j].metadata.id in r.value.0.segments && r.value.0.segments[ds[j].metadata.id] == r.value.1[j])
                && (forall k :: k in st.segments && (forall m :: 0 <= m < |ds| ==> ds[m].metadata.id != k) ==>
                      k in r.value.0.segments && r.value.0.segments[k] == st.segments[k])
    {
      var reset := st.(scripts := st.scripts + [RemovedScoringScripts(scoringId)]);
      DependentsRewrittenSegments(ds, cs, ScoringTarget(scoringId), reset, now);
    }

    /** After removing a scoring each dependent scoring whose id no later one has, and that is
        not the removed scoring, is stored as saved, and every other scoring but the removed one
        is as it was. */
    lemma ScoringRemovalScorings(scoringId: string, ds: seq<Segment>, cs: seq<Scoring>, st: Stores, now: int)
      requires StoreKeyed(st.rules)
      ensures var r := ScoringRemoval(scoringId, ds, cs, st, now);
              r.Ok? ==>
                && (forall j :: 0 <= j < |cs| && cs[j].metadata.id != scoringId &&
                                (forall m :: j < m < |cs| ==> cs[m].metadata.id != cs[j].metadata.id) ==>
                      cs[j].metadata.id in r.value.0.scorings && r.value.0.scorings[cs[j].metadata.id] == r.value.2[j])
                && (forall k :: k in st.scorings && k != scoringId && (forall m :: 0 <= m < |cs| ==> cs[m].metadata.id != k) ==>
                      k in r.value.0.scorings && r.value.0.scorings[k] == st.scorings[k])
    {
      var reset := st.(scripts := st.scripts + [RemovedScoringScripts(scoringId)]);
      DependentsRewrittenScorings(ds, cs, ScoringTarget(scoringId), reset, now);
      var dr := DependentsRewritten(ds, cs, ScoringTarget(scoringId), reset, now);
      if dr.Ok? {
        ScoringsLeftAfterRemoval(dr.value.0.scorings, dr.value.2, cs, st.scorings, scoringId);
      }
    }

    /** Taking the removed scoring out of the store keeps every other entry. */
    lemma ScoringsLeftAfterRemoval(scs: map<string, Scoring>, saved: seq<Scoring>, cs: seq<Scoring>, before: map<string, Scoring>, id: string)
      requires |saved| == |cs|
      requires forall j :: 0 <= j < |cs| && (forall m :: j < m < |cs| ==> cs[m].metadata.id != cs[j].metadata.id) ==>
                 cs[j].metadata.id in scs && scs[cs[j].metadata.id] == saved[j]
      requires forall k :: k in before && (forall m :: 0 <= m < |cs| ==> cs[m].metadata.id != k) ==> k in scs && scs[k] == before[k]
      ensures forall j :: 0 <= j < |cs| && cs[j].metadata.id != id &&
                          (forall m :: j < m < |cs| ==> cs[m].metadata.id != cs[j].metadata.id) ==>
                cs[j].metadata.id in scs - {id} && (scs - {id})[cs[j].metadata.id] == saved[j]
      ensures forall k :: k in before && k != id && (forall m :: 0 <= m < |cs| ==> cs[m].metadata.id != k) ==>
                k in scs - {id} && (scs - {id})[k] == before[k]
    {
      ScoringsLeftSaved(scs, saved, cs, id);
      ScoringsLeftKept(scs, cs, before, id);
    }

    lemma ScoringsLeftSaved(scs: map<string, Scoring>, saved: seq<Scoring>, cs: seq<Scoring>, id: string)
      requires |saved| == |cs|
      requires forall j :: 0 <= j < |cs| && (forall m :: j < m < |cs| ==> cs[m].metadata.id != cs[j].metadata.id) ==>
                 cs[j].metadata.id in scs && scs[cs[j].metadata.id] == saved[j]
      ensures forall j :: 0 <= j < |cs| && cs[j].metadata.id != id &&
                          (forall m :: j < m < |cs| ==> cs[m].metadata.id != cs[j].metadata.id) ==>
                cs[j].metadata.id in scs - {id} && (scs - {id})[cs[j].metadata.id] == saved[j]
    {
    }

    lemma ScoringsLeftKept(scs: map<string, Scoring>, cs: seq<Scoring>, before: map<string, Scoring>, id: string)
      requires forall k :: k in before && (forall m :: 0 <= m < |cs| ==> cs[m].metadata.id != k) ==> k in scs && scs[k] == before[k]
      ensures forall k :: k in before && k != id && (forall m :: 0 <= m < |cs| ==> cs[m].metadata.id != k) ==>
                k in scs - {id} && (scs - {id})[k] == before[k]
    {
    }

    /** After removing a scoring no rule links it any more, and no rule links a dependent that
        was emptied, as long as each was linked at most once by each rule and no other dependent
        shares its id. */
    lemma ScoringRemovalLinks(scoringId: string, ds: seq<Segment>, cs: seq<Scoring>, st: Stores, now: int)
      requires StoreKeyed(st.rules)
      ensures var r := ScoringRemoval(scoringId, ds, cs, st, now);
              var t := ScoringTarget(scoringId);
              r.Ok? ==>
                && (LinkedAtMost(st.rules, scoringId, 1) &&
                    (forall m :: 0 <= m < |ds| ==> ds[m].metadata.id != scoringId) &&
                    (forall m :: 0 <= m < |cs| ==> cs[m].metadata.id != scoringId) ==>
                      LinkedAtMost(r.value.0.rules, scoringId, 0))
                && EmptiedSegmentsUnlinked(st.rules, r.value.0.rules, ds, cs, t)
                && EmptiedScoringsUnlinked(st.rules, r.value.0.rules, ds, cs, t)
    {
      var t := ScoringTarget(scoringId);
      var reset := st.(scripts := st.scripts + [RemovedScoringScripts(scoringId)]);
      var dr := DependentsRewritten(ds, cs, t, reset, now);
      DependentsRewrittenUnlinkSegments(ds, cs, t, reset, now);
      DependentsRewrittenUnlinkScorings(ds, cs, t, reset, now);
      if dr.Ok? {
        var b := dr.value.0;
        if LinkedAtMost(st.rules, scoringId, 1) &&
           (forall m :: 0 <= m < |ds| ==> ds[m].metadata.id != scoringId) &&
           (forall m :: 0 <= m < |cs| ==> cs[m].metadata.id != scoringId) {
          DependentsRewrittenLinks(ds, cs, t, reset, now, scoringId);
          ClearUnlinks(b.rules, scoringId);
        }
        assert reset.rules == st.rules;
        ClearKeepsSegmentsUnlinked(st.rules, b.rules, scoringId, ds, cs, t);
        ClearKeepsScoringsUnlinked(st.rules, b.rules, scoringId, ds, cs, t);
      }
    }

    /** With distinct ids, removing a segment leaves it and each emptied dependent unlinked. */
    lemma SegmentRemovalUnlinks(segmentId: string, ds: seq<Segment>, cs: seq<Scoring>, st: Stores, now: int)
      requires StoreKeyed(st.rules)
      ensures var r := SegmentRemoval(segmentId, ds, cs, st, now);
              r.Ok? && DependentIdsDistinct(ds, cs, segmentId) ==> Unlinked(st.rules, r.value.0.rules, segmentId, ds, cs, SegmentTarget(segmentId))
    {
      SegmentRemovalLinks(segmentId, ds, cs, st, now);
    }

    /** With distinct ids, removing a scoring leaves it and each emptied dependent unlinked. */
    lemma ScoringRemovalUnlinks(scoringId: string, ds: seq<Segment>, cs: seq<Scoring>, st: Stores, now: int)
      requires StoreKeyed(st.rules)
      ensures var r := ScoringRemoval(scoringId, ds, cs, st, now);
              r.Ok? && DependentIdsDistinct(ds, cs, scoringId) ==> Unlinked(st.rules, r.value.0.rules, scoringId, ds, cs, ScoringTarget(scoringId))
    {
      ScoringRemovalLinks(scoringId, ds, cs, st, now);
    }

    /** The cached segment with the rewritten condition; when nothing is left of the condition the
        segment's rules are cleared and it is disabled. */
    method RewrittenSegment(segment: Segment, t: Target) returns (s: Segment)
      requires Valid()
      modifies this`rules
      ensures Valid()
      ensures s == SegmentRewrite(segment, t)
      ensures segment.condition.Some? && s.condition.None? ==> rules == RuleUpdate(old(rules), [], segment.metadata.id)
      ensures !(segment.condition.Some? && s.condition.None?) ==> rules == old(rules)
    {
      s := segment;
      if segment.condition.Some? {
        var updatedCondition := RewriteCondition(segment.condition.value, t);
        s := s.(condition := updatedCondition);
        if updatedCondition.None? {
          ClearLinkedRules(s.metadata.id);
          s := s.(metadata := s.metadata.(enabled := false));
        }
      }
    }

    /** The step of a dependent segment whose save goes through, from what it saves. */
    lemma SegmentStepFrom(d: Segment, t: Target, st: Stores, now: int, s: Segment, store: map<string, Rule>,
                          rs: map<string, Rule>, ps: map<string, Profile>, saved: Segment, after: Stores)
      requires StoreKeyed(st.rules) && StoreKeyed(store)
      requires s == SegmentRewrite(d, t) && store == if Emptied(d, t) then RuleUpdate(st.rules, [], d.metadata.id) else st.rules
      requires SegmentPrepared(s, store, st.profiles, now) == Ok((rs, ps, saved))
      requires after == Stores(rs, SegmentSettled(ps, saved, now), st.segments[saved.metadata.id := saved], st.scorings, st.scripts)
      ensures var step := SegmentStep(d, t, st, now);
              step.Ok? && after == step.value.0 && saved == step.value.1
    {
    }

    /** One dependent segment of a removal: the cached segment takes the rewritten condition, and
        when nothing is left of it its rules are cleared and it is disabled; it is then saved with
        setSegmentDefinition, and the cached segment takes the saved form. */
    method RewriteOneSegment(i: nat, t: Target, now: int) returns (r: Result<()>)
      requires Valid() && i < |allSegments|
      modifies this`allSegments, this`segments, this`rules, this`profiles, this`events
      ensures Valid()
      ensures profiles.Keys == old(profiles).Keys
      ensures |allSegments| == |old(allSegments)|
      ensures forall j :: 0 <= j < |allSegments| && j != i ==> allSegments[j] == old(allSegments)[j]
      ensures var s := SegmentRewrite(old(allSegments)[i], t);
              && allSegments[i].metadata == s.metadata
              && (Emptied(old(allSegments)[i], t) ==>
                    allSegments[i].condition.None? && rules == RuleUpdate(old(rules), [], s.metadata.id))
              && (r.Ok? ==> forall x :: x != s.metadata.id ==> KeepsMembership(old(profiles), profiles, x))
      ensures var step := SegmentStep(old(allSegments)[i], t, old(Persisted()), now);
              r.Ok? ==> step.Ok? && Persisted() == step.value.0 && allSegments[i] == step.value.1
    {
      ghost var s := SegmentRewrite(allSegments[i], t);
      ghost var st0 := Persisted();
      var segment := RewrittenSegment(allSegments[i], t);
      allSegments := allSegments[i := segment];
      ghost var mid := profiles;
      ghost var store := rules;
      ghost var prep := SegmentPrepared(segment, rules, profiles, now);
      assert Emptied(old(allSegments)[i], t) ==> prep == Ok((rules, profiles, segment));
      assert rules == if Emptied(old(allSegments)[i], t) then RuleUpdate(st0.rules, [], s.metadata.id) else st0.rules;
      var res, added, removed := SetSegmentDefinition(segment, now);
      if res.Err? {
        return Err(res.error);
      }
      allSegments := allSegments[i := res.value];
      SettledKeepsOthers(old(profiles), prep.value.1, res.value, now, profiles, s.metadata.id);
      SegmentStepFrom(old(allSegments)[i], t, st0, now, segment, store, prep.value.0, prep.value.1, res.value, Persisted());
      r := Ok(());
    }

    /** The first k dependent segments at the positions have been rewritten from the cache cache0
        and the stores st0 as the segment steps state, and the profiles have kept every
        membership but theirs. */
    ghost predicate RewrittenUpTo(idx: seq<nat>, k: nat, t: Target, cache0: seq<Segment>, st0: Stores, now: int)
      reads this
      requires k <= |idx| && InRange(idx, |cache0|)
    {
      && StoreKeyed(st0.rules)
      && var f := SegmentSteps(Picked(cache0, idx[..k]), t, st0, now);
      && f.Ok? && Persisted() == f.value.0
      && CacheRewrittenUpTo(allSegments, idx, k, cache0, f.value.1)
      && profiles.Keys == st0.profiles.Keys
      && (forall x :: x !in IdsAt(cache0, idx[..k]) ==> KeepsMembership(st0.profiles, profiles, x))
    }

    /** One turn of the loop over the dependent segments. */
    method RewriteSegmentAt(idx: seq<nat>, k: nat, t: Target, now: int, ghost cache0: seq<Segment>, ghost st0: Stores)
      returns (r: Result<()>)
      requires Valid() && Increasing(idx) && InRange(idx, |cache0|) && k < |idx|
      requires RewrittenUpTo(idx, k, t, cache0, st0, now)
      modifies this`allSegments, this`segments, this`rules, this`profiles, this`events
      ensures Valid() && profiles.Keys == st0.profiles.Keys && |allSegments| == |cache0|
      ensures forall p :: 0 <= p < |allSegments| && p !in idx[..k + 1] ==> allSegments[p] == cache0[p]
      ensures r.Ok? ==> RewrittenUpTo(idx, k + 1, t, cache0, st0, now)
    {
      var p := idx[k];
      IncreasingStep(idx, k);
      PickedSnoc(cache0, idx, k);
      ghost var before := profiles;
      ghost var cache := allSegments;
      ghost var id := allSegments[p].metadata.id;
      ghost var f := SegmentSteps(Picked(cache0, idx[..k]), t, st0, now);
      assert cache[p] == cache0[p];
      r := RewriteOneSegment(p, t, now);
      if r.Ok? {
        ghost var step := SegmentStep(cache0[p], t, f.value.0, now);
        ghost var ds := Picked(cache0, idx[..k + 1]);
        SegmentStepsSnoc(ds, k, t, st0, now, f, step);
        CacheRewriteStep(cache, allSegments, idx, k, cache0, f.value.1, step.value.1);
        IdsAtSnoc(cache0, idx, k);
        forall x | x !in IdsAt(cache0, idx[..k + 1])
          ensures KeepsMembership(st0.profiles, profiles, x)
        {
          KeepsMembershipTrans(st0.profiles, before, profiles, x);
        }
      } else {
        forall q | 0 <= q < |allSegments| && q !in idx[..k + 1]
          ensures allSegments[q] == cache0[q]
        {
          assert q != p && q !in idx[..k];
        }
      }
    }

    /** The dependent segments at the positions, in order; the first failure ends the loop. */
    method RewriteSegments(idx: seq<nat>, t: Target, now: int) returns (r: Result<()>)
      requires Valid() && Increasing(idx) && InRange(idx, |allSegments|)
      modifies this`allSegments, this`segments, this`rules, this`profiles, this`events
      ensures Valid()
      ensures profiles.Keys == old(profiles).Keys
      ensures |allSegments| == |old(allSegments)|
      ensures forall p :: 0 <= p < |allSegments| && p !in idx ==> allSegments[p] == old(allSegments)[p]
      ensures var f := SegmentSteps(Picked(old(allSegments), idx), t, old(Persisted()), now);
              r.Ok? ==> f.Ok? && Persisted() == f.value.0 && forall j :: 0 <= j < |idx| ==> allSegments[idx[j]] == f.value.1[j]
      ensures r.Ok? ==> forall x :: x !in IdsAt(old(allSegments), idx) ==> KeepsMembership(old(profiles), profiles, x)
    {
      var k := 0;
      assert idx[..0] == [];
      assert Picked(old(allSegments), idx[..0]) == [];
      while k < |idx|
        invariant 0 <= k <= |idx|
        invariant Valid()
        invariant RewrittenUpTo(idx, k, t, old(allSegments), old(Persisted()), now)
      {
        r := RewriteSegmentAt(idx, k, t, now, old(allSegments), old(Persisted()));
        if r.Err? {
          assert forall p :: p !in idx ==> p !in idx[..k + 1];
          return;
        }
        k := k + 1;
      }
      assert idx[..k] == idx;
      r := Ok(());
    }

    /** One dependent scoring of a removal: the cached scoring keeps the elements whose condition
        survives the rewrite, and when none is left its rules are cleared and it is disabled; it is
        then saved with setScoringDefinition, and the cached scoring takes the saved form. */
    method RewriteOneScoring(i: nat, t: Target, now: int) returns (r: Result<()>)
      requires Valid() && i < |allScoring|
      modifies this`allScoring, this`scorings, this`rules, this`profiles, this`scripts
      ensures Valid()
      ensures profiles.Keys == old(profiles).Keys
      ensures |allScoring| == |old(allScoring)|
      ensures forall j :: 0 <= j < |allScoring| && j != i ==> allScoring[j] == old(allScoring)[j]
      ensures var s := ScoringRewrite(old(allScoring)[i], t);
              && ScoringSaved(allScoring[i], s)
              && (s.elements == [] ==> r.Ok? && rules == RuleUpdate(old(rules), [], s.metadata.id))
              && (r.Ok? ==> SameSegments(old(profiles), profiles))
      ensures var step := ScoringStep(old(allScoring)[i], t, old(Persisted()), now);
              r.Ok? ==> step.Ok? && Persisted() == step.value.0 && allScoring[i] == step.value.1
      ensures r.Err? ==> scripts == old(scripts)
    {
      var scoring := allScoring[i];
      var updatedScoringElements := UpdateScoringElements(scoring.elements, t);
      scoring := scoring.(elements := updatedScoringElements);
      if updatedScoringElements == [] {
        ClearLinkedRules(scoring.metadata.id);
        scoring := scoring.(metadata := scoring.metadata.(enabled := false));
      }
      assert scoring == ScoringRewrite(old(allScoring)[i], t);
      allScoring := allScoring[i := scoring];
      ghost var prep := ScoringPrepared(scoring, rules, profiles, now);
      ScoringPreparedSaved(scoring, rules, profiles, now);
      assert updatedScoringElements == [] ==> prep == Ok((rules, profiles, scoring));
      var res := SetScoringDefinition(scoring, now);
      if res.Err? {
        return Err(res.error);
      }
      allScoring := allScoring[i := res.value];
      r := Ok(());
    }

    /** The first k dependent scorings at the positions have been rewritten from the cache cache0
        and the stores st0 as the scoring steps state, and no membership has changed. */
    ghost predicate ScoringsRewrittenUpTo(idx: seq<nat>, k: nat, t: Target, cache0: seq<Scoring>, st0: Stores, now: int)
      reads this
      requires k <= |idx| && InRange(idx, |cache0|)
    {
      && StoreKeyed(st0.rules)
      && var f := ScoringSteps(Picked(cache0, idx[..k]), t, st0, now);
      && f.Ok? && Persisted() == f.value.0
      && CacheRewrittenUpTo(allScoring, idx, k, cache0, f.value.1)
      && SameSegments(st0.profiles, profiles)
    }

    /** One turn of the loop over the dependent scorings. */
    method RewriteScoringAt(idx: seq<nat>, k: nat, t: Target, now: int, ghost cache0: seq<Scoring>, ghost st0: Stores)
      returns (r: Result<()>)
      requires Valid() && Increasing(idx) && InRange(idx, |cache0|) && k < |idx|
      requires ScoringsRewrittenUpTo(idx, k, t, cache0, st0, now)
      modifies this`allScoring, this`scorings, this`rules, this`profiles, this`scripts
      ensures Valid() && profiles.Keys == st0.profiles.Keys && |allScoring| == |cache0|
      ensures forall p :: 0 <= p < |allScoring| && p !in idx[..k + 1] ==> allScoring[p] == cache0[p]
      ensures r.Ok? ==> ScoringsRewrittenUpTo(idx, k + 1, t, cache0, st0, now)
      ensures old(scripts) <= scripts
    {
      var p := idx[k];
      IncreasingStep(idx, k);
      PickedSnoc(cache0, idx, k);
      ghost var before := profiles;
      ghost var cache := allScoring;
      ghost var f := ScoringSteps(Picked(cache0, idx[..k]), t, st0, now);
      assert cache[p] == cache0[p];
      r := RewriteOneScoring(p, t, now);
      if r.Ok? {
        ghost var step := ScoringStep(cache0[p], t, f.value.0, now);
        ghost var cs := Picked(cache0, idx[..k + 1]);
        ScoringStepsSnoc(cs, k, t, st0, now, f, step);
        CacheRewriteStep(cache, allScoring, idx, k, cache0, f.value.1, step.value.1);
        SameSegmentsTrans(st0.profiles, before, profiles);
      } else {
        forall q | 0 <= q < |allScoring| && q !in idx[..k + 1]
          ensures allScoring[q] == cache0[q]
        {
          assert q != p && q !in idx[..k];
        }
      }
    }

    /** The dependent scorings at the positions, in order; the first failure ends the loop. */
    method RewriteScorings(idx: seq<nat>, t: Target, now: int) returns (r: Result<()>)
      requires Valid() && Increasing(idx) && InRange(idx, |allScoring|)
      modifies this`allScoring, this`scorings, this`rules, this`profiles, this`scripts
      ensures Valid()
      ensures profiles.Keys == old(profiles).Keys
      ensures |allScoring| == |old(allScoring)|
      ensures forall p :: 0 <= p < |allScoring| && p !in idx ==> allScoring[p] == old(allScoring)[p]
      ensures var f := ScoringSteps(Picked(old(allScoring), idx), t, old(Persisted()), now);
              r.Ok? ==> f.Ok? && Persisted() == f.value.0 && forall j :: 0 <= j < |idx| ==> allScoring[idx[j]] == f.value.1[j]
      ensures r.Ok? ==> SameSegments(old(profiles), profiles)
      ensures old(scripts) <= scripts
    {
      var k := 0;
      assert idx[..0] == [];
      assert Picked(old(allScoring), idx[..0]) == [];
      while k < |idx|
        invariant 0 <= k <= |idx|
        invariant Valid()
        invariant ScoringsRewrittenUpTo(idx, k, t, old(allScoring), old(Persisted()), now)
        invariant old(scripts) <= scripts
      {
        ghost var before := scripts;
        r := RewriteScoringAt(idx, k, t, now, old(allScoring), old(Persisted()));
        PrefixTrans(old(scripts), before, scripts);
        if r.Err? {
          assert forall p :: p !in idx ==> p !in idx[..k + 1];
          return;
        }
        k := k + 1;
      }
      assert idx[..k] == idx;
      r := Ok(());
    }
    // -------------------------------------------------------------------------------------------
    // Removing a definition.

    /** removeSegmentDefinition: unless validation finds dependents, the removal runs. The report
        lists the dependents found before any change, with their metadata as the cache holds it
        after. */
    method RemoveSegmentDefinition(segmentId: string, validate: bool, now: int) returns (r: Result<DependentMetadata>)
      requires Valid()
      modifies this
      ensures Valid()
      ensures profiles.Keys == old(profiles).Keys
      ensures |allSegments| == |old(allSegments)| && |allScoring| == |old(allScoring)|
      ensures var t := SegmentTarget(segmentId);
              var si := SegmentDeps(old(allSegments), t);
              var ci := ScoringDeps(old(allScoring), t);
              && (validate && (si != [] || ci != []) ==>
                    r == Ok(DependentsOf(old(allSegments), old(allScoring), t)) && unchanged(this))
              && (r.Ok? ==> r.value == DependentMetadata(SegmentsMetadata(allSegments, si), ScoringsMetadata(allScoring, ci)))
              && (r.Ok? && (!validate || (si == [] && ci == [])) ==>
                    && Holds(SegmentRemoval(segmentId, Picked(old(allSegments), si), Picked(old(allScoring), ci), old(Persisted()), now), si, ci)
                    && (forall j :: 0 <= j < |si| ==> SegmentSaved(allSegments[si[j]], SegmentRewrite(old(allSegments)[si[j]], t)))
                    && (forall j :: 0 <= j < |ci| ==> ScoringSaved(allScoring[ci[j]], ScoringRewrite(old(allScoring)[ci[j]], t)))
                    && segmentId !in segments
                    && (DependentIdsDistinct(Picked(old(allSegments), si), Picked(old(allScoring), ci), segmentId) ==>
                          Unlinked(old(rules), rules, segmentId, Picked(old(allSegments), si), Picked(old(allScoring), ci), t))
                    && (forall x :: x != segmentId && x !in IdsAt(old(allSegments), si) ==>
                          KeepsMembership(old(profiles), profiles, x))
                    && (Compositional(ext.testMatch) && (forall id :: Lands(id)) && segmentId !in IdsAt(old(allSegments), si) ==>
                          forall k :: k in profiles ==> segmentId !in profiles[k].segments))
    {
      var t := SegmentTarget(segmentId);
      var impactedSegments := GetDependentSegments(t);
      var impactedScorings := GetDependentScorings(t);
      if !validate || (impactedSegments == [] && impactedScorings == []) {
        SegmentDepsIncreasing(allSegments, t);
        ScoringDepsIncreasing(allScoring, t);
        var res := RemoveSegmentEffects(segmentId, impactedSegments, impactedScorings, now);
        if res.Err? {
          return Err(res.error);
        }
        ghost var ds, cs := Picked(old(allSegments), impactedSegments), Picked(old(allScoring), impactedScorings);
        SegmentRemovalSaved(segmentId, ds, cs, old(Persisted()), now);
        SegmentRemovalUnlinks(segmentId, ds, cs, old(Persisted()), now);
      }
      var metadata := MetadataAt(impactedSegments, impactedScorings);
      r := Ok(metadata);
    }

    /** The stores and the cache are the removal's result: the stores it states, and its saved
        dependents at their positions. */
    ghost predicate Holds(rm: Result<(Stores, seq<Segment>, seq<Scoring>)>, si: seq<nat>, ci: seq<nat>)
      reads this
    {
      HoldsOn(rm, Persisted(), allSegments, allScoring, si, ci)
    }

    /** Holds, on the stores and the caches given as values. */
    predicate HoldsOn(rm: Result<(Stores, seq<Segment>, seq<Scoring>)>, st: Stores, segs: seq<Segment>, scs: seq<Scoring>,
                      si: seq<nat>, ci: seq<nat>)
    {
      && rm.Ok? && st == rm.value.0 && |rm.value.1| == |si| && |rm.value.2| == |ci|
      && (forall j :: 0 <= j < |si| ==> si[j] < |segs| && segs[si[j]] == rm.value.1[j])
      && (forall j :: 0 <= j < |ci| ==> ci[j] < |scs| && scs[ci[j]] == rm.value.2[j])
    }

    /** Removing the segment and clearing its rules after the dependents keeps Holds. */
    lemma HoldsSegmentDropped(rm: Result<(Stores, seq<Segment>, seq<Scoring>)>, st: Stores, segs: seq<Segment>, scs: seq<Scoring>,
                              si: seq<nat>, ci: seq<nat>, id: string)
      requires HoldsOn(rm, st, segs, scs, si, ci)
      ensures HoldsOn(Ok((rm.value.0.(segments := rm.value.0.segments - {id}, rules := RuleUpdate(rm.value.0.rules, [], id)), rm.value.1, rm.value.2)),
                      st.(segments := st.segments - {id}, rules := RuleUpdate(st.rules, [], id)), segs, scs, si, ci)
    {
    }

    /** Removing the scoring and clearing its rules after the dependents keeps Holds. */
    lemma HoldsScoringDropped(rm: Result<(Stores, seq<Segment>, seq<Scoring>)>, st: Stores, segs: seq<Segment>, scs: seq<Scoring>,
                              si: seq<nat>, ci: seq<nat>, id: string)
      requires HoldsOn(rm, st, segs, scs, si, ci)
      ensures HoldsOn(Ok((rm.value.0.(scorings := rm.value.0.scorings - {id}, rules := RuleUpdate(rm.value.0.rules, [], id)), rm.value.1, rm.value.2)),
                      st.(scorings := st.scorings - {id}, rules := RuleUpdate(st.rules, [], id)), segs, scs, si, ci)
    {
    }

    /** The removal proper: every member of the segment leaves it, each dependent segment and then
        each dependent scoring is rewritten and saved, the segment is removed and the rules linked
        to it are cleared. */
    method RemoveSegmentEffects(segmentId: string, si: seq<nat>, ci: seq<nat>, now: int) returns (r: Result<()>)
      requires Valid() && Increasing(si) && InRange(si, |allSegments|) && Increasing(ci) && InRange(ci, |allScoring|)
      modifies this`allSegments, this`allScoring, this`segments, this`scorings, this`rules, this`profiles, this`events, this`scripts
      ensures Valid()
      ensures profiles.Keys == old(profiles).Keys
      ensures |allSegments| == |old(allSegments)| && |allScoring| == |old(allScoring)|
      ensures r.Ok? ==>
                && Holds(SegmentRemoval(segmentId, Picked(old(allSegments), si), Picked(old(allScoring), ci), old(Persisted()), now), si, ci)
                && (forall x :: x != segmentId && x !in IdsAt(old(allSegments), si) ==>
                      KeepsMembership(old(profiles), profiles, x))
                && (Compositional(ext.testMatch) && (forall id :: Lands(id)) && segmentId !in IdsAt(old(allSegments), si) ==>
                      forall k :: k in profiles ==> segmentId !in profiles[k].segments)
    {
      r := StripSegment(segmentId, now);
      if r.Err? {
        return;
      }
      ghost var stripped := profiles;
      r := DropSegment(segmentId, si, ci, now);
      if r.Err? {
        return;
      }
      forall x | x != segmentId && x !in IdsAt(old(allSegments), si)
        ensures KeepsMembership(old(profiles), profiles, x)
      {
        PassKeeps(old(profiles), Matching(old(profiles), MembershipQuery(segmentId)), segmentId, false, now, x);
        KeepsMembershipTrans(old(profiles), stripped, profiles, x);
      }
      if Compositional(ext.testMatch) && (forall id :: Lands(id)) && segmentId !in IdsAt(old(allSegments), si) {
        StripClears(old(profiles), segmentId, now);
      }
    }

    /** The segment leaves the segment store and the rules linked to it are cleared. */
    method ForgetSegment(segmentId: string)
      requires Valid()
      modifies this`segments, this`rules
      ensures Valid()
      ensures Persisted() == old(Persisted()).(segments := old(segments) - {segmentId}, rules := RuleUpdate(old(rules), [], segmentId))
    {
      segments := segments - {segmentId};
      ClearLinkedRules(segmentId);
    }

    /** The scoring leaves the scoring store and the rules linked to it are cleared. */
    method ForgetScoring(scoringId: string)
      requires Valid()
      modifies this`scorings, this`rules
      ensures Valid()
      ensures Persisted() == old(Persisted()).(scorings := old(scorings) - {scoringId}, rules := RuleUpdate(old(rules), [], scoringId))
    {
      scorings := scorings - {scoringId};
      ClearLinkedRules(scoringId);
    }

    /** The removal past the profile update: each dependent is rewritten and saved, the segment is
        removed and the rules linked to it are cleared. */
    method DropSegment(segmentId: string, si: seq<nat>, ci: seq<nat>, now: int) returns (r: Result<()>)
      requires Valid() && Increasing(si) && InRange(si, |allSegments|) && Increasing(ci) && InRange(ci, |allScoring|)
      modifies this`allSegments, this`allScoring, this`segments, this`scorings, this`rules, this`profiles, this`events, this`scripts
      ensures Valid()
      ensures profiles.Keys == old(profiles).Keys
      ensures |allSegments| == |old(allSegments)| && |allScoring| == |old(allScoring)|
      ensures r.Ok? ==>
                var dr := DependentsRewritten(Picked(old(allSegments), si), Picked(old(allScoring), ci), SegmentTarget(segmentId), old(Persisted()), now);
                && dr.Ok?
                && Holds(Ok((dr.value.0.(segments := dr.value.0.segments - {segmentId}, rules := RuleUpdate(dr.value.0.rules, [], segmentId)), dr.value.1, dr.value.2)), si, ci)
      ensures r.Ok? ==> forall x :: x !in IdsAt(old(allSegments), si) ==> KeepsMembership(old(profiles), profiles, x)
    {
      r := RewriteDependents(si, ci, SegmentTarget(segmentId), now);
      if r.Err? {
        return;
      }
      ghost var rewritten := profiles;
      ghost var dr := DependentsRewritten(Picked(old(allSegments), si), Picked(old(allScoring), ci), SegmentTarget(segmentId), old(Persisted()), now);
      ghost var b := Persisted();
      ForgetSegment(segmentId);
      HoldsSegmentDropped(dr, b, allSegments, allScoring, si, ci, segmentId);
    }

    /** The dependent segments and then the dependent scorings at the positions, rewritten and
        saved in order; the first failure ends the removal. */
    method RewriteDependents(si: seq<nat>, ci: seq<nat>, t: Target, now: int) returns (r: Result<()>)
      requires Valid() && Increasing(si) && InRange(si, |allSegments|) && Increasing(ci) && InRange(ci, |allScoring|)
      modifies this`allSegments, this`allScoring, this`segments, this`scorings, this`rules, this`profiles, this`events, this`scripts
      ensures Valid()
      ensures profiles.Keys == old(profiles).Keys
      ensures |allSegments| == |old(allSegments)| && |allScoring| == |old(allScoring)|
      ensures old(scripts) <= scripts
      ensures r.Ok? ==> Holds(DependentsRewritten(Picked(old(allSegments), si), Picked(old(allScoring), ci), t, old(Persisted()), now), si, ci)
      ensures r.Ok? ==> forall x :: x !in IdsAt(old(allSegments), si) ==> KeepsMembership(old(profiles), profiles, x)
    {
      ghost var ds, cs := Picked(allSegments, si), Picked(allScoring, ci);
      r := RewriteSegments(si, t, now);
      if r.Err? {
        return;
      }
      ghost var rewritten := profiles;
      ghost var a := Persisted();
      ghost var first := SegmentSteps(ds, t, old(Persisted()), now);
      r := RewriteScorings(ci, t, now);
      if r.Err? {
        return;
      }
      ghost var second := ScoringSteps(cs, t, a, now);
      assert DependentsRewritten(ds, cs, t, old(Persisted()), now) == Ok((Persisted(), first.value.1, second.value.1));
      forall x | x !in IdsAt(old(allSegments), si)
        ensures KeepsMembership(old(profiles), profiles, x)
      {
        KeepsMembershipTrans(old(profiles), rewritten, profiles, x);
      }
    }
    /** updateExistingProfilesForRemovedScoring: a one-slot script that drops the scoring's score
        from the profiles holding one. */
    method UpdateExistingProfilesForRemovedScoring(scoringId: string)
      modifies this`scripts
      ensures scripts == old(scripts) + [RemovedScoringScripts(scoringId)]
    {
      var slots := new Option<ScriptStep>[1](_ => None);
      slots[0] := Some(RemoveScore(scoringId, ScoreExistsQuery(scoringId)));
      assert slots[..] == RemovedScoringScripts(scoringId);
      scripts := scripts + [slots[..]];
    }

    /** removeScoringDefinition: unless validation finds dependents, the removal runs. The report
        lists the dependents found before any change, with their metadata as the cache holds it
        after. */
    method RemoveScoringDefinition(scoringId: string, validate: bool, now: int) returns (r: Result<DependentMetadata>)
      requires Valid()
      modifies this
      ensures Valid()
      ensures profiles.Keys == old(profiles).Keys
      ensures |allSegments| == |old(allSegments)| && |allScoring| == |old(allScoring)|
      ensures var t := ScoringTarget(scoringId);
              var si := SegmentDeps(old(allSegments), t);
              var ci := ScoringDeps(old(allScoring), t);
              && (validate && (si != [] || ci != []) ==>
                    r == Ok(DependentsOf(old(allSegments), old(allScoring), t)) && unchanged(this))
              && (r.Ok? ==> r.value == DependentMetadata(SegmentsMetadata(allSegments, si), ScoringsMetadata(allScoring, ci)))
              && (!validate || (si == [] && ci == []) ==> old(scripts) + [RemovedScoringScripts(scoringId)] <= scripts)
              && (r.Ok? && (!validate || (si == [] && ci == [])) ==>
                    && Holds(ScoringRemoval(scoringId, Picked(old(allSegments), si), Picked(old(allScoring), ci), old(Persisted()), now), si, ci)
                    && (forall j :: 0 <= j < |si| ==> SegmentSaved(allSegments[si[j]], SegmentRewrite(old(allSegments)[si[j]], t)))
                    && (forall j :: 0 <= j < |ci| ==> ScoringSaved(allScoring[ci[j]], ScoringRewrite(old(allScoring)[ci[j]], t)))
                    && scoringId !in scorings
                    && (DependentIdsDistinct(Picked(old(allSegments), si), Picked(old(allScoring), ci), scoringId) ==>
                          Unlinked(old(rules), rules, scoringId, Picked(old(allSegments), si), Picked(old(allScoring), ci), t))
                    && (forall x :: x !in IdsAt(old(allSegments), si) ==> KeepsMembership(old(profiles), profiles, x)))
    {
      var t := ScoringTarget(scoringId);
      var impactedSegments := GetDependentSegments(t);
      var impactedScorings := GetDependentScorings(t);
      if !validate || (impactedSegments == [] && impactedScorings == []) {
        SegmentDepsIncreasing(allSegments, t);
        ScoringDepsIncreasing(allScoring, t);
        var res := RemoveScoringEffects(scoringId, impactedSegments, impactedScorings, now);
        if res.Err? {
          return Err(res.error);
        }
        ghost var ds, cs := Picked(old(allSegments), impactedSegments), Picked(old(allScoring), impactedScorings);
        ScoringRemovalSaved(scoringId, ds, cs, old(Persisted()), now);
        ScoringRemovalUnlinks(scoringId, ds, cs, old(Persisted()), now);
      }
      var metadata := MetadataAt(impactedSegments, impactedScorings);
      r := Ok(metadata);
    }

    /** The removal proper: the scoring's score is dropped from the profiles, each dependent
        segment and then each dependent scoring is rewritten and saved, the scoring is removed and
        the rules linked to it are cleared. */
    method RemoveScoringEffects(scoringId: string, si: seq<nat>, ci: seq<nat>, now: int) returns (r: Result<()>)
      requires Valid() && Increasing(si) && InRange(si, |allSegments|) && Increasing(ci) && InRange(ci, |allScoring|)
      modifies this`allSegments, this`allScoring, this`segments, this`scorings, this`rules, this`profiles, this`events, this`scripts
      ensures Valid()
      ensures profiles.Keys == old(profiles).Keys
      ensures |allSegments| == |old(allSegments)| && |allScoring| == |old(allScoring)|
      ensures old(scripts) + [RemovedScoringScripts(scoringId)] <= scripts
      ensures r.Ok? ==>
                && Holds(ScoringRemoval(scoringId, Picked(old(allSegments), si), Picked(old(allScoring), ci), old(Persisted()), now), si, ci)
                && (forall x :: x !in IdsAt(old(allSegments), si) ==> KeepsMembership(old(profiles), profiles, x))
    {
      UpdateExistingProfilesForRemovedScoring(scoringId);
      ghost var start := Persisted();
      assert start == old(Persisted()).(scripts := old(scripts) + [RemovedScoringScripts(scoringId)]);
      r := DropScoring(scoringId, si, ci, now);
    }

    /** The removal past the reset script: each dependent is rewritten and saved, the scoring is
        removed and the rules linked to it are cleared. */
    method DropScoring(scoringId: string, si: seq<nat>, ci: seq<nat>, now: int) returns (r: Result<()>)
      requires Valid() && Increasing(si) && InRange(si, |allSegments|) && Increasing(ci) && InRange(ci, |allScoring|)
      modifies this`allSegments, this`allScoring, this`segments, this`scorings, this`rules, this`profiles, this`events, this`scripts
      ensures Valid()
      ensures profiles.Keys == old(profiles).Keys
      ensures |allSegments| == |old(allSegments)| && |allScoring| == |old(allScoring)|
      ensures old(scripts) <= scripts
      ensures r.Ok? ==>
                var dr := DependentsRewritten(Picked(old(allSegments), si), Picked(old(allScoring), ci), ScoringTarget(scoringId), old(Persisted()), now);
                && dr.Ok?
                && Holds(Ok((dr.value.0.(scorings := dr.value.0.scorings - {scoringId}, rules := RuleUpdate(dr.value.0.rules, [], scoringId)), dr.value.1, dr.value.2)), si, ci)
      ensures r.Ok? ==> forall x :: x !in IdsAt(old(allSegments), si) ==> KeepsMembership(old(profiles), profiles, x)
    {
      r := RewriteDependents(si, ci, ScoringTarget(scoringId), now);
      if r.Err? {
        return;
      }
      ghost var dr := DependentsRewritten(Picked(old(allSegments), si), Picked(old(allScoring), ci), ScoringTarget(scoringId), old(Persisted()), now);
      ghost var b := Persisted();
      ForgetScoring(scoringId);
      HoldsScoringDropped(dr, b, allSegments, allScoring, si, ci, scoringId);
    }
}

  /** The script slots of a scoring: slot 0 resets the score of the profiles holding one; slot
      i + 1 adds element i's value to the profiles matching its condition, and is empty when the
      scoring is disabled. */
  function ScoringScripts(scoring: Scoring): (r: seq<Option<ScriptStep>>)
    ensures |r| == |scoring.elements| + 1
  {
    var id := scoring.metadata.id;
    [Some(ResetScore(id, ScoreExistsQuery(id)))] +
    seq(|scoring.elements|, i requires 0 <= i < |scoring.elements| =>
      if scoring.metadata.enabled then Some(AddScore(id, scoring.elements[i].value, scoring.elements[i].condition)) else None)
  }

  /** A slot array laid out slot by slot is the scoring's scripts. */
  lemma ScoringScriptsLayout(scoring: Scoring, slots: seq<Option<ScriptStep>>)
    requires |slots| == |scoring.elements| + 1
    requires slots[0] == Some(ResetScore(scoring.metadata.id, ScoreExistsQuery(scoring.metadata.id)))
    requires forall j :: 1 <= j < |slots| ==>
               slots[j] == if scoring.metadata.enabled
                           then Some(AddScore(scoring.metadata.id, scoring.elements[j - 1].value, scoring.elements[j - 1].condition))
                           else None
    ensures slots == ScoringScripts(scoring)
  {
  }
  // ---------------------------------------------------------------------------------------------
  // Dependents of a definition about to be removed.

  /** The cache after the first k dependents at the positions have been rewritten from cache0:
      those hold the saved forms, every other position is as it was. */
  ghost predicate CacheRewrittenUpTo<T>(cache: seq<T>, idx: seq<nat>, k: nat, cache0: seq<T>, saved: seq<T>)
    requires k <= |idx|
  {
    && |cache| == |cache0| && |saved| == k
    && (forall p :: 0 <= p < |cache| && p !in idx[..k] ==> cache[p] == cache0[p])
    && (forall j :: 0 <= j < k && idx[j] < |cache| ==> cache[idx[j]] == saved[j])
  }

  /** Saving the next dependent at its position, and touching no other position, extends the
      prefix. */
  lemma CacheRewriteStep<T>(cache: seq<T>, after: seq<T>, idx: seq<nat>, k: nat, cache0: seq<T>, saved: seq<T>, last: T)
    requires Increasing(idx) && InRange(idx, |cache0|) && k < |idx|
    requires CacheRewrittenUpTo(cache, idx, k, cache0, saved)
    requires |after| == |cache| && after[idx[k]] == last
    requires forall q :: 0 <= q < |after| && q != idx[k] ==> after[q] == cache[q]
    ensures CacheRewrittenUpTo(after, idx, k + 1, cache0, saved + [last])
  {
    var p := idx[k];
    assert p !in idx[..k];
    forall q | 0 <= q < |after| && q !in idx[..k + 1]
      ensures after[q] == cache0[q]
    {
      assert idx[..k + 1] == idx[..k] + [p];
      assert q != p && q !in idx[..k];
    }
    forall j | 0 <= j < k + 1 && idx[j] < |after|
      ensures after[idx[j]] == (saved + [last])[j]
    {
      if j < k {
        assert idx[j] < p;
      }
    }
  }

  /** Every position is below n. */
  predicate InRange(idx: seq<nat>, n: nat) {
    forall j :: 0 <= j < |idx| ==> idx[j] < n
  }

  predicate Increasing(idx: seq<nat>) {
    forall a, b :: 0 <= a < b < |idx| ==> idx[a] < idx[b]
  }

  /** A scoring depends on the target when one of its elements does. */
  predicate ScoringImpacted(sc: Scoring, t: Target) {
    exists j :: 0 <= j < |sc.elements| && Impacted(Some(sc.elements[j].condition), t)
  }

  /** The positions in the cache of the segments whose condition refers to the target. */
  function SegmentDeps(cache: seq<Segment>, t: Target): (r: seq<nat>)
    ensures InRange(r, |cache|)
  {
    if |cache| == 0 then []
    else
      var n := |cache| - 1;
      SegmentDeps(cache[..n], t) + (if Impacted(cache[n].condition, t) then [n] else [])
  }

  /** The positions are increasing. */
  lemma {:induction false} SegmentDepsIncreasing(cache: seq<Segment>, t: Target)
    ensures Increasing(SegmentDeps(cache, t))
  {
    if |cache| > 0 {
      SegmentDepsIncreasing(cache[..|cache| - 1], t);
    }
  }

  /** The positions are exactly those of the dependent segments. */
  lemma {:induction false} SegmentDepsMembers(cache: seq<Segment>, t: Target)
    ensures forall i: nat :: i in SegmentDeps(cache, t) <==> i < |cache| && Impacted(cache[i].condition, t)
  {
    if |cache| > 0 {
      var n := |cache| - 1;
      var prefix := cache[..n];
      SegmentDepsMembers(prefix, t);
      assert SegmentDeps(cache, t) == SegmentDeps(prefix, t) + (if Impacted(cache[n].condition, t) then [n] else []);
      forall i: nat
        ensures i in SegmentDeps(cache, t) <==> i < |cache| && Impacted(cache[i].condition, t)
      {
        if i < n {
          assert prefix[i] == cache[i];
          assert i in SegmentDeps(prefix, t) <==> Impacted(prefix[i].condition, t);
        } else {
          assert i !in SegmentDeps(prefix, t);
        }
      }
    }
  }

  /** The positions in the cache of the scorings with an element referring to the target. */
  function ScoringDeps(cache: seq<Scoring>, t: Target): (r: seq<nat>)
    ensures InRange(r, |cache|)
  {
    if |cache| == 0 then []
    else
      var n := |cache| - 1;
      ScoringDeps(cache[..n], t) + (if ScoringImpacted(cache[n], t) then [n] else [])
  }

  /** The positions are increasing. */
  lemma {:induction false} ScoringDepsIncreasing(cache: seq<Scoring>, t: Target)
    ensures Increasing(ScoringDeps(cache, t))
  {
    if |cache| > 0 {
      ScoringDepsIncreasing(cache[..|cache| - 1], t);
    }
  }

  /** The positions are exactly those of the dependent scorings. */
  lemma {:induction false} ScoringDepsMembers(cache: seq<Scoring>, t: Target)
    ensures forall i: nat :: i in ScoringDeps(cache, t) <==> i < |cache| && ScoringImpacted(cache[i], t)
  {
    if |cache| > 0 {
      var n := |cache| - 1;
      var prefix := cache[..n];
      ScoringDepsMembers(prefix, t);
      assert ScoringDeps(cache, t) == ScoringDeps(prefix, t) + (if ScoringImpacted(cache[n], t) then [n] else []);
      forall i: nat
        ensures i in ScoringDeps(cache, t) <==> i < |cache| && ScoringImpacted(cache[i], t)
      {
        if i < n {
          assert prefix[i] == cache[i];
          assert i in ScoringDeps(prefix, t) <==> ScoringImpacted(prefix[i], t);
        } else {
          assert i !in ScoringDeps(prefix, t);
        }
      }
    }
  }

  function SegmentsMetadata(cache: seq<Segment>, idx: seq<nat>): (r: seq<Metadata>)
    requires InRange(idx, |cache|)
    ensures |r| == |idx| && forall j :: 0 <= j < |idx| ==> r[j] == cache[idx[j]].metadata
  {
    seq(|idx|, j requires 0 <= j < |idx| => cache[idx[j]].metadata)
  }

  function ScoringsMetadata(cache: seq<Scoring>, idx: seq<nat>): (r: seq<Metadata>)
    requires InRange(idx, |cache|)
    ensures |r| == |idx| && forall j :: 0 <= j < |idx| ==> r[j] == cache[idx[j]].metadata
  {
    seq(|idx|, j requires 0 <= j < |idx| => cache[idx[j]].metadata)
  }

  /** What getSegmentDependentMetadata / getScoringDependentMetadata report for the cache. */
  function DependentsOf(segmentCache: seq<Segment>, scoringCache: seq<Scoring>, t: Target): DependentMetadata {
    var si := SegmentDeps(segmentCache, t);
    var ci := ScoringDeps(scoringCache, t);
    DependentMetadata(SegmentsMetadata(segmentCache, si), ScoringsMetadata(scoringCache, ci))
  }

  /** The report lists exactly the metadata of the dependents. */
  lemma DependentsOfContents(segmentCache: seq<Segment>, scoringCache: seq<Scoring>, t: Target, md: Metadata)
    ensures var d := DependentsOf(segmentCache, scoringCache, t);
            && (md in d.segments <==> exists i :: 0 <= i < |segmentCache| && Impacted(segmentCache[i].condition, t) &&
                                                 segmentCache[i].metadata == md)
            && (md in d.scorings <==> exists i :: 0 <= i < |scoringCache| && ScoringImpacted(scoringCache[i], t) &&
                                                 scoringCache[i].metadata == md)
  {
    var d := DependentsOf(segmentCache, scoringCache, t);
    var si := SegmentDeps(segmentCache, t);
    var ci := ScoringDeps(scoringCache, t);
    SegmentDepsMembers(segmentCache, t);
    ScoringDepsMembers(scoringCache, t);
    if md in d.segments {
      var j :| 0 <= j < |d.segments| && d.segments[j] == md;
      assert si[j] in si;
    }
    if exists i :: 0 <= i < |segmentCache| && Impacted(segmentCache[i].condition, t) && segmentCache[i].metadata == md {
      var i :| 0 <= i < |segmentCache| && Impacted(segmentCache[i].condition, t) && segmentCache[i].metadata == md;
      var j :| 0 <= j < |si| && si[j] == i;
      assert d.segments[j] == md;
    }
    if md in d.scorings {
      var j :| 0 <= j < |d.scorings| && d.scorings[j] == md;
      assert ci[j] in ci;
    }
    if exists i :: 0 <= i < |scoringCache| && ScoringImpacted(scoringCache[i], t) && scoringCache[i].metadata == md {
      var i :| 0 <= i < |scoringCache| && ScoringImpacted(scoringCache[i], t) && scoringCache[i].metadata == md;
      var j :| 0 <= j < |ci| && ci[j] == i;
      assert d.scorings[j] == md;
    }
  }

  // ---------------------------------------------------------------------------------------------
  // Rewriting the dependents.

  /** updateSegmentDependentCondition or updateScoringDependentCondition, as the target says. */
  method RewriteCondition(c: Condition, t: Target) returns (r: Option<Condition>)
    ensures r == Rewrite.Rewrite(c, t)
  {
    match t
    case SegmentTarget(id) => r := UpdateSegmentDependentCondition(c, id);
    case ScoringTarget(id) => r := UpdateScoringDependentCondition(c, id);
  }

  /** The elements whose condition f keeps, with the condition f returns, in order. */
  function KeptElements(es: seq<ScoringElement>, f: Condition -> Option<Condition>): (r: seq<ScoringElement>)
    ensures |r| <= |es|
  {
    if |es| == 0 then []
    else
      var n := |es| - 1;
      var c := f(es[n].condition);
      KeptElements(es[..n], f) + (if c.Some? then [es[n].(condition := c.value)] else [])
  }

  /** Every kept element comes, with its value, from an element whose condition f keeps. */
  lemma {:induction false} KeptElementsOrigin(es: seq<ScoringElement>, f: Condition -> Option<Condition>, x: ScoringElement)
    requires x in KeptElements(es, f)
    ensures exists j :: 0 <= j < |es| && f(es[j].condition) == Some(x.condition) && x.value == es[j].value
  {
    var n := |es| - 1;
    if x in KeptElements(es[..n], f) {
      KeptElementsOrigin(es[..n], f, x);
      var j :| 0 <= j < n && f(es[..n][j].condition) == Some(x.condition) && x.value == es[..n][j].value;
      assert es[..n][j] == es[j];
    }
  }

  /** Every element whose condition f keeps is kept. */
  lemma {:induction false} KeptElementsKeep(es: seq<ScoringElement>, f: Condition -> Option<Condition>, j: nat)
    requires j < |es| && f(es[j].condition).Some?
    ensures ScoringElement(f(es[j].condition).value, es[j].value) in KeptElements(es, f)
  {
    var n := |es| - 1;
    if j < n {
      assert es[..n][j] == es[j];
      KeptElementsKeep(es[..n], f, j);
    }
  }

  /** No element is left exactly when f keeps no condition. */
  lemma {:induction false} KeptElementsEmpty(es: seq<ScoringElement>, f: Condition -> Option<Condition>)
    ensures KeptElements(es, f) == [] <==> forall j :: 0 <= j < |es| ==> f(es[j].condition).None?
  {
    if |es| > 0 {
      var n := |es| - 1;
      KeptElementsEmpty(es[..n], f);
      assert forall j :: 0 <= j < n ==> es[..n][j] == es[j];
    }
  }

  lemma KeptElementsSnoc(es: seq<ScoringElement>, k: nat, f: Condition -> Option<Condition>, c: Option<Condition>)
    requires k < |es| && f(es[k].condition) == c
    ensures KeptElements(es[..k + 1], f) == KeptElements(es[..k], f) + (if c.Some? then [es[k].(condition := c.value)] else [])
  {
    assert es[..k + 1][..k] == es[..k];
  }

  lemma RewriteForIs(t: Target, c: Condition, r: Option<Condition>)
    requires r == Rewrite.Rewrite(c, t)
    ensures RewriteFor(t)(c) == r
  {
  }

  /** The rewrite of a condition for the target, as a function value. */
  function RewriteFor(t: Target): Condition -> Option<Condition> {
    c => Rewrite.Rewrite(c, t)
  }

  /** The elements of a dependent scoring whose condition survives the rewrite, rewritten. */
  function RewrittenElements(es: seq<ScoringElement>, t: Target): (r: seq<ScoringElement>)
    ensures |r| <= |es|
  {
    KeptElements(es, RewriteFor(t))
  }

  /** The loop of removeSegmentDefinition / removeScoringDefinition over a dependent scoring's
      elements. */
  method UpdateScoringElements(es: seq<ScoringElement>, t: Target) returns (r: seq<ScoringElement>)
    ensures r == RewrittenElements(es, t)
  {
    r := [];
    var k := 0;
    while k < |es|
      invariant 0 <= k <= |es|
      invariant r == KeptElements(es[..k], RewriteFor(t))
    {
      var scoringElement := es[k];
      var updatedCondition := RewriteCondition(scoringElement.condition, t);
      RewriteForIs(t, scoringElement.condition, updatedCondition);
      KeptElementsSnoc(es, k, RewriteFor(t), updatedCondition);
      if updatedCondition.Some? {
        r := r + [scoringElement.(condition := updatedCondition.value)];
      }
      k := k + 1;
    }
    assert es[..k] == es;
  }

  /** The two stores hold the same profiles, each in segment x exactly when it was before. */
  predicate KeepsMembership(before: map<string, Profile>, after: map<string, Profile>, x: string) {
    before.Keys == after.Keys && forall k :: k in before ==> (x in after[k].segments <==> x in before[k].segments)
  }

  lemma KeepsMembershipTrans(a: map<string, Profile>, b: map<string, Profile>, c: map<string, Profile>, x: string)
    requires (SameSegments(a, b) || KeepsMembership(a, b, x)) && (SameSegments(b, c) || KeepsMembership(b, c, x))
    ensures KeepsMembership(a, c, x)
  {
  }

  lemma SameSegmentsTrans(a: map<string, Profile>, b: map<string, Profile>, c: map<string, Profile>)
    requires SameSegments(a, b) && SameSegments(b, c)
    ensures SameSegments(a, c)
  {
  }

  /** The ids of the cached segments at the positions. */
  function IdsAt(cache: seq<Segment>, idx: seq<nat>): set<string> {
    set j | 0 <= j < |idx| && idx[j] < |cache| :: cache[idx[j]].metadata.id
  }

  /** One more position adds the id cached there. */
  lemma IdsAtSnoc(cache: seq<Segment>, idx: seq<nat>, k: nat)
    requires k < |idx| && idx[k] < |cache|
    ensures IdsAt(cache, idx[..k + 1]) == IdsAt(cache, idx[..k]) + {cache[idx[k]].metadata.id}
  {
    assert idx[..k + 1][k] == idx[k];
    assert forall j :: 0 <= j < k ==> idx[..k + 1][j] == idx[..k][j];
  }

  /** A dependent segment with the reference rewritten away; a segment with nothing left of its
      condition is disabled. */
  function SegmentRewrite(segment: Segment, t: Target): (r: Segment)
    ensures r.metadata.id == segment.metadata.id
  {
    match segment.condition
    case None => segment
    case Some(condition) =>
      var c := Rewrite.Rewrite(condition, t);
      if c.None? then segment.(condition := None, metadata := segment.metadata.(enabled := false))
      else segment.(condition := c)
  }

  /** The rewritten segment no longer refers to the target, and stays enabled only when it was and
      some condition is left. */
  lemma SegmentRewriteFacts(segment: Segment, t: Target)
    requires segment.condition.Some? && Rewritable(segment.condition.value, t)
    ensures var r := SegmentRewrite(segment, t);
            && !Impacted(r.condition, t)
            && (r.metadata.enabled <==> segment.metadata.enabled && r.condition.Some?)
            && r.metadata.(enabled := segment.metadata.enabled) == segment.metadata
  {
    RewriteRemovesReference(segment.condition.value, t);
  }

  /** A dependent scoring with the reference rewritten away; a scoring with no element left is
      disabled. */
  function ScoringRewrite(scoring: Scoring, t: Target): (r: Scoring)
    ensures r.metadata.id == scoring.metadata.id
  {
    var es := RewrittenElements(scoring.elements, t);
    if es == [] then scoring.(elements := es, metadata := scoring.metadata.(enabled := false))
    else scoring.(elements := es)
  }

  /** The rewritten scoring stays enabled exactly when it was and some element's condition
      survives the rewrite; every element left comes from one of the scoring's, with its value. */
  lemma ScoringRewriteFacts(scoring: Scoring, t: Target)
    ensures var r := ScoringRewrite(scoring, t);
            && (r.metadata.enabled <==>
                  scoring.metadata.enabled &&
                  exists j :: 0 <= j < |scoring.elements| && Rewrite.Rewrite(scoring.elements[j].condition, t).Some?)
            && r.metadata.(enabled := scoring.metadata.enabled) == scoring.metadata
            && forall x :: x in r.elements ==>
                 exists j :: 0 <= j < |scoring.elements| && Rewrite.Rewrite(scoring.elements[j].condition, t) == Some(x.condition) &&
                             x.value == scoring.elements[j].value
  {
    var es := scoring.elements;
    KeptElementsEmpty(es, RewriteFor(t));
    assert forall j :: 0 <= j < |es| ==> RewriteFor(t)(es[j].condition) == Rewrite.Rewrite(es[j].condition, t);
    forall x | x in ScoringRewrite(scoring, t).elements
      ensures exists j :: 0 <= j < |es| && Rewrite.Rewrite(es[j].condition, t) == Some(x.condition) && x.value == es[j].value
    {
      KeptElementsOrigin(es, RewriteFor(t), x);
    }
  }

  /** The script array of updateExistingProfilesForRemovedScoring. */
  function RemovedScoringScripts(scoringId: string): seq<Option<ScriptStep>> {
    [Some(RemoveScore(scoringId, ScoreExistsQuery(scoringId)))]
  }

  lemma PrefixTrans<T>(a: seq<T>, b: seq<T>, c: seq<T>)
    requires a <= b && b <= c
    ensures a <= c
  {
  }

  /** The segment setSegmentDefinition saved for the given one: the same metadata, a condition
      exactly when the given one has one (always, when enabled), and the given segment itself when
      it is disabled, misses plugins or has no trigger to stamp. */
  predicate SegmentSaved(saved: Segment, segment: Segment) {
    && saved.metadata == segment.metadata
    && (saved.condition.Some? <==> segment.condition.Some?)
    && (saved.metadata.enabled ==> saved.condition.Some?)
    && ((|| !segment.metadata.enabled || segment.metadata.missingPlugins
         || (segment.condition.Some? && TriggerFree(segment.condition.value))) ==> saved == segment)
  }

  /** The scoring setScoringDefinition saved for the given one: the same metadata, the same
      element values in the same order, and the given scoring itself when it is disabled or misses
      plugins. */
  predicate ScoringSaved(saved: Scoring, scoring: Scoring) {
    && saved.metadata == scoring.metadata
    && |saved.elements| == |scoring.elements|
    && (forall i :: 0 <= i < |saved.elements| ==> saved.elements[i].value == scoring.elements[i].value)
    && (!scoring.metadata.enabled || scoring.metadata.missingPlugins ==> saved == scoring)
  }

  /** The stores the service writes: the rules, the profiles, the segments and scorings by id,
      and the script arrays handed to the store. */
  datatype Stores = Stores(rules: map<string, Rule>, profiles: map<string, Profile>,
                           segments: map<string, Segment>, scorings: map<string, Scoring>,
                           scripts: seq<seq<Option<ScriptStep>>>)

  /** A dependent segment whose condition the rewrite removes entirely. */
  predicate Emptied(segment: Segment, t: Target) {
    segment.condition.Some? && SegmentRewrite(segment, t).condition.None?
  }

  /** The cached definitions at the positions, in order. */
  function Picked<T>(cache: seq<T>, idx: seq<nat>): (r: seq<T>)
    requires InRange(idx, |cache|)
    ensures |r| == |idx| && forall j :: 0 <= j < |idx| ==> r[j] == cache[idx[j]]
  {
    seq(|idx|, j requires 0 <= j < |idx| => cache[idx[j]])
  }

  /** Picking one position more extends the picked list by the cached value there. */
  lemma PickedSnoc<T>(cache: seq<T>, idx: seq<nat>, k: nat)
    requires InRange(idx, |cache|) && k < |idx|
    ensures InRange(idx[..k], |cache|) && InRange(idx[..k + 1], |cache|)
    ensures var ps := Picked(cache, idx[..k + 1]);
            |ps| == k + 1 && ps[..k] == Picked(cache, idx[..k]) && ps[k] == cache[idx[k]]
  {
    assert forall j :: 0 <= j < k ==> idx[..k + 1][j] == idx[..k][j];
  }

  /** A position of an increasing list is not among those before it. */
  lemma IncreasingStep(idx: seq<nat>, k: nat)
    requires Increasing(idx) && k < |idx|
    ensures idx[k] !in idx[..k]
    ensures forall q :: q in idx[..k + 1] <==> q in idx[..k] || q == idx[k]
  {
    assert idx[..k + 1] == idx[..k] + [idx[k]];
  }

  /** No two dependents share an id, and none has the id of the item removed. */
  predicate DependentIdsDistinct(ds: seq<Segment>, cs: seq<Scoring>, itemId: string) {
    && (forall i, j :: 0 <= i < j < |ds| ==> ds[i].metadata.id != ds[j].metadata.id)
    && (forall i, j :: 0 <= i < j < |cs| ==> cs[i].metadata.id != cs[j].metadata.id)
    && (forall i, j :: 0 <= i < |ds| && 0 <= j < |cs| ==> ds[i].metadata.id != cs[j].metadata.id)
    && (forall i :: 0 <= i < |ds| ==> ds[i].metadata.id != itemId)
    && (forall j :: 0 <= j < |cs| ==> cs[j].metadata.id != itemId)
  }

  /** Every emptied dependent segment that was linked at most once, and whose id no other
      dependent has, is linked by no rule of after. */
  predicate EmptiedSegmentsUnlinked(before: map<string, Rule>, after: map<string, Rule>, ds: seq<Segment>, cs: seq<Scoring>, t: Target) {
    forall j :: 0 <= j < |ds| && Emptied(ds[j], t) && LinkedAtMost(before, ds[j].metadata.id, 1) &&
                (forall m :: 0 <= m < |ds| && m != j ==> ds[m].metadata.id != ds[j].metadata.id) &&
                (forall m :: 0 <= m < |cs| ==> cs[m].metadata.id != ds[j].metadata.id) ==>
      LinkedAtMost(after, ds[j].metadata.id, 0)
  }

  /** The same for the emptied dependent scorings. */
  predicate EmptiedScoringsUnlinked(before: map<string, Rule>, after: map<string, Rule>, ds: seq<Segment>, cs: seq<Scoring>, t: Target) {
    forall j :: 0 <= j < |cs| && ScoringRewrite(cs[j], t).elements == [] && LinkedAtMost(before, cs[j].metadata.id, 1) &&
                (forall m :: 0 <= m < |cs| && m != j ==> cs[m].metadata.id != cs[j].metadata.id) &&
                (forall m :: 0 <= m < |ds| ==> ds[m].metadata.id != cs[j].metadata.id) ==>
      LinkedAtMost(after, cs[j].metadata.id, 0)
  }

  /** No rule of after links the removed item, nor a dependent the rewrite emptied, of those that
      no rule of before linked more than once. */
  predicate Unlinked(before: map<string, Rule>, after: map<string, Rule>, itemId: string, ds: seq<Segment>, cs: seq<Scoring>, t: Target) {
    && (LinkedAtMost(before, itemId, 1) ==> LinkedAtMost(after, itemId, 0))
    && (forall j :: 0 <= j < |ds| && Emptied(ds[j], t) && LinkedAtMost(before, ds[j].metadata.id, 1) ==>
          LinkedAtMost(after, ds[j].metadata.id, 0))
    && (forall j :: 0 <= j < |cs| && ScoringRewrite(cs[j], t).elements == [] && LinkedAtMost(before, cs[j].metadata.id, 1) ==>
          LinkedAtMost(after, cs[j].metadata.id, 0))
  }
}
