/** Classifying one profile against the cached definitions (getSegmentsAndScoresForProfile,
    isProfileInSegment, getSegmentMetadatasForProfile). The store's condition matcher is a
    parameter and is not interpreted. */
module Classification {
  import opened Wrappers
  import opened Conditions
  import opened Definitions

  /** persistenceService.testMatch: does the profile satisfy the (possibly null) condition. */
  type Matcher = (Option<Condition>, Profile) -> bool

  const TwoTo32: int := 0x1_0000_0000

  /** Java int arithmetic: the value congruent to x modulo 2^32 in the int range. */
  function Wrap32(x: int): (r: Int32)
    ensures -0x8000_0000 <= x < 0x8000_0000 ==> r == x
    ensures (x - r) % TwoTo32 == 0
  {
    (x + 0x8000_0000) % TwoTo32 - 0x8000_0000
  }

  /** Wrapping after every addition gives the same int as wrapping once at the end. */
  lemma Wrap32Add(a: int, b: int)
    ensures Wrap32(Wrap32(a) + b) == Wrap32(a + b)
  {
    var k := (a - Wrap32(a)) / TwoTo32;
    assert a == Wrap32(a) + k * TwoTo32;
    assert a + b + 0x8000_0000 == (Wrap32(a) + b + 0x8000_0000) + k * TwoTo32;
  }

  /** The cached segments the profile belongs to: enabled, and their condition matches. */
  predicate InSegment(s: Segment, testMatch: Matcher, profile: Profile) {
    s.metadata.enabled && testMatch(s.condition, profile)
  }

  /** The exact sum of the values of the elements whose condition matches. */
  function MatchedWeight(elements: seq<ScoringElement>, testMatch: Matcher, profile: Profile): int {
    if |elements| == 0 then 0
    else
      var last := elements[|elements| - 1];
      MatchedWeight(elements[..|elements| - 1], testMatch, profile) +
      (if testMatch(Some(last.condition), profile) then last.value else 0)
  }

  /** The profile's scoreModifiers entry for the scoring, when the map, the key and a non-null value
      are all present; zero otherwise. */
  function ModifierFor(profile: Profile, scoringId: string): int {
    match profile.systemProperties.scoreModifiers
    case None => 0
    case Some(m) => if scoringId in m && m[scoringId].Some? then m[scoringId].value else 0
  }

  /** The score of an enabled scoring: matched weight plus modifier, wrapped to a Java int. */
  function ScoreFor(scoring: Scoring, testMatch: Matcher, profile: Profile): Int32 {
    Wrap32(MatchedWeight(scoring.elements, testMatch, profile) + ModifierFor(profile, scoring.metadata.id))
  }

  /** The scores map after visiting the scorings in order; a later scoring with the same id
      overwrites an earlier one, as Map.put does. */
  function ScoresFor(scorings: seq<Scoring>, testMatch: Matcher, profile: Profile): map<string, Int32> {
    if |scorings| == 0 then map[]
    else
      var last := scorings[|scorings| - 1];
      var m := ScoresFor(scorings[..|scorings| - 1], testMatch, profile);
      if last.metadata.enabled then m[last.metadata.id := ScoreFor(last, testMatch, profile)] else m
  }

  /** The scores map has a key exactly for the ids of enabled scorings. */
  lemma {:induction false} ScoresForKeys(scorings: seq<Scoring>, testMatch: Matcher, profile: Profile, id: string)
    ensures id in ScoresFor(scorings, testMatch, profile) <==>
            exists i :: 0 <= i < |scorings| && scorings[i].metadata.enabled && scorings[i].metadata.id == id
  {
    if |scorings| > 0 {
      var n := |scorings| - 1;
      var prefix := scorings[..n];
      ScoresForKeys(prefix, testMatch, profile, id);
      assert forall i :: 0 <= i < n ==> prefix[i] == scorings[i];
    }
  }

  /** The value for an id is the score of the last enabled scoring carrying it. */
  lemma {:induction false} ScoresForValue(scorings: seq<Scoring>, testMatch: Matcher, profile: Profile, i: nat)
    requires i < |scorings| && scorings[i].metadata.enabled
    requires forall j :: i < j < |scorings| && scorings[j].metadata.enabled ==> scorings[j].metadata.id != scorings[i].metadata.id
    ensures var m := ScoresFor(scorings, testMatch, profile);
            scorings[i].metadata.id in m && m[scorings[i].metadata.id] == ScoreFor(scorings[i], testMatch, profile)
  {
    var n := |scorings| - 1;
    if i < n {
      var prefix := scorings[..n];
      assert forall j :: 0 <= j < n ==> prefix[j] == scorings[j];
      ScoresForValue(prefix, testMatch, profile, i);
    }
  }

  /** A scoring whose elements all match scores its values' sum plus its modifier; the worked
      example is two matching elements worth 5 and 2 and no modifier, giving 7. */
  lemma ScoreExample(profile: Profile, testMatch: Matcher, c1: Condition, c2: Condition, md: Metadata)
    requires testMatch(Some(c1), profile) && testMatch(Some(c2), profile)
    requires profile.systemProperties.scoreModifiers == None
    ensures ScoreFor(Scoring(md, [ScoringElement(c1, 5), ScoringElement(c2, 2)]), testMatch, profile) == 7
  {
    var es := [ScoringElement(c1, 5), ScoringElement(c2, 2)];
    assert es[..1] == [ScoringElement(c1, 5)];
    assert es[..1][..0] == [];
    assert MatchedWeight(es[..1], testMatch, profile) == 5;
    assert MatchedWeight(es, testMatch, profile) == 7;
  }

  /** The int sum wraps: a matched weight of 2^31 - 1 plus a modifier of 1 scores -2^31. */
  lemma ScoreWraps(profile: Profile, testMatch: Matcher, c: Condition, md: Metadata)
    requires testMatch(Some(c), profile)
    requires profile.systemProperties.scoreModifiers == Some(map[md.id := Some(1)])
    ensures ScoreFor(Scoring(md, [ScoringElement(c, 0x7fff_ffff)]), testMatch, profile) == -0x8000_0000
  {
    var es := [ScoringElement(c, 0x7fff_ffff)];
    assert es[..0] == [];
    assert MatchedWeight(es, testMatch, profile) == 0x7fff_ffff;
    assert ModifierFor(profile, md.id) == 1;
  }

  /** getSegmentsAndScoresForProfile over a snapshot of the cached lists. */
  method SegmentsAndScoresForProfile(allSegments: seq<Segment>, allScoring: seq<Scoring>,
                                     testMatch: Matcher, profile: Profile) returns (r: SegmentsAndScores)
    ensures forall id :: id in r.segments <==>
              exists i :: 0 <= i < |allSegments| && InSegment(allSegments[i], testMatch, profile) &&
                          allSegments[i].metadata.id == id
    ensures r.scores == ScoresFor(allScoring, testMatch, profile)
  {
    var segments: set<string> := {};
    var k := 0;
    while k < |allSegments|
      invariant 0 <= k <= |allSegments|
      invariant forall id :: id in segments <==>
                  exists i :: 0 <= i < k && InSegment(allSegments[i], testMatch, profile) &&
                              allSegments[i].metadata.id == id
    {
      var segment := allSegments[k];
      if segment.metadata.enabled && testMatch(segment.condition, profile) {
        segments := segments + {segment.metadata.id};
      }
      k := k + 1;
    }

    var scores: map<string, Int32> := map[];
    var s := 0;
    while s < |allScoring|
      invariant 0 <= s <= |allScoring|
      invariant scores == ScoresFor(allScoring[..s], testMatch, profile)
    {
      var scoring := allScoring[s];
      assert allScoring[..s + 1][..s] == allScoring[..s];
      if scoring.metadata.enabled {
        var score: Int32 := 0;
        var e := 0;
        while e < |scoring.elements|
          invariant 0 <= e <= |scoring.elements|
          invariant score == Wrap32(MatchedWeight(scoring.elements[..e], testMatch, profile))
        {
          var element := scoring.elements[e];
          assert scoring.elements[..e + 1][..e] == scoring.elements[..e];
          if testMatch(Some(element.condition), profile) {
            Wrap32Add(MatchedWeight(scoring.elements[..e], testMatch, profile), element.value);
            score := Wrap32(score + element.value);
          }
          e := e + 1;
        }
        assert scoring.elements[..e] == scoring.elements;
        var scoringId := scoring.metadata.id;
        match profile.systemProperties.scoreModifiers {
          case Some(scoreModifiers) =>
            if scoringId in scoreModifiers && scoreModifiers[scoringId].Some? {
              Wrap32Add(MatchedWeight(scoring.elements, testMatch, profile), scoreModifiers[scoringId].value);
              score := Wrap32(score + scoreModifiers[scoringId].value);
            }
          case None =>
        }
        scores := scores[scoringId := score];
      }
      s := s + 1;
    }
    assert allScoring[..s] == allScoring;
    return SegmentsAndScores(segments, scores);
  }

  /** isProfileInSegment: the classification's segment set contains the id. */
  method IsProfileInSegment(allSegments: seq<Segment>, allScoring: seq<Scoring>, testMatch: Matcher,
                            profile: Profile, segmentId: string) returns (r: bool)
    ensures r <==> exists i :: 0 <= i < |allSegments| && InSegment(allSegments[i], testMatch, profile) &&
                              allSegments[i].metadata.id == segmentId
  {
    var matching := SegmentsAndScoresForProfile(allSegments, allScoring, testMatch, profile);
    return segmentId in matching.segments;
  }

  /** The metadata of the matching segments, one entry per matching segment, in cache order. */
  function MatchingMetadata(allSegments: seq<Segment>, testMatch: Matcher, profile: Profile)
    : (r: seq<Metadata>)
    ensures |r| <= |allSegments|
    ensures forall md :: md in r <==>
              exists i :: 0 <= i < |allSegments| && InSegment(allSegments[i], testMatch, profile) &&
                          allSegments[i].metadata == md
    decreases |allSegments|
  {
    if |allSegments| == 0 then []
    else
      var n := |allSegments| - 1;
      var front := allSegments[..n];
      assert forall i :: 0 <= i < n ==> front[i] == allSegments[i];
      MatchingMetadata(front, testMatch, profile) +
      (if InSegment(allSegments[n], testMatch, profile) then [allSegments[n].metadata] else [])
  }

  /** getSegmentMetadatasForProfile: the metadata of the matching segments, in cache order. */
  method SegmentMetadatasForProfile(allSegments: seq<Segment>, testMatch: Matcher, profile: Profile)
    returns (r: seq<Metadata>)
    ensures r == MatchingMetadata(allSegments, testMatch, profile)
    ensures |r| <= |allSegments|
    ensures forall md :: md in r <==>
              exists i :: 0 <= i < |allSegments| && InSegment(allSegments[i], testMatch, profile) &&
                          allSegments[i].metadata == md
  {
    r := [];
    var k := 0;
    while k < |allSegments|
      invariant 0 <= k <= |allSegments|
      invariant r == MatchingMetadata(allSegments[..k], testMatch, profile)
    {
      assert allSegments[..k + 1][..k] == allSegments[..k];
      if allSegments[k].metadata.enabled && testMatch(allSegments[k].condition, profile) {
        r := r + [allSegments[k].metadata];
      }
      k := k + 1;
    }
    assert allSegments[..k] == allSegments;
  }

  /** A worked instance: of three cached segments the first and the last match, and a segment whose
      metadata equals the first's still gets its own entry. */
  lemma MatchingMetadataKeepsDuplicates(a: Segment, b: Segment, testMatch: Matcher, profile: Profile)
    requires InSegment(a, testMatch, profile) && !InSegment(b, testMatch, profile)
    ensures MatchingMetadata([a, b, a], testMatch, profile) == [a.metadata, a.metadata]
  {
    assert [a][..0] == [];
    assert MatchingMetadata([a], testMatch, profile) == [a.metadata];
    assert [a, b][..1] == [a];
    assert MatchingMetadata([a, b], testMatch, profile) == [a.metadata];
    assert [a, b, a][..2] == [a, b];
  }
}
