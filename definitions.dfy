/** The entities the segment service reads and writes (org.apache.unomi.api), as values. */
module Definitions {
  import opened Wrappers
  import opened Conditions

  /** A Java int. */
  type Int32 = x: int | -0x8000_0000 <= x < 0x8000_0000

  datatype Metadata = Metadata(
    id: string, scope: string, name: string, description: string,
    enabled: bool, hidden: bool, missingPlugins: bool)

  /** A segment; its condition is None once a deletion has rewritten it away. */
  datatype Segment = Segment(metadata: Metadata, condition: Option<Condition>)

  datatype ScoringElement = ScoringElement(condition: Condition, value: Int32)

  datatype Scoring = Scoring(metadata: Metadata, elements: seq<ScoringElement>)

  /** The single action of an auto-generated rule: setEventOccurenceCountAction, parameterised
      by the parent of the event condition it counts. */
  datatype Action = Action(actionTypeId: string, pastEventCondition: Condition)

  datatype Rule = Rule(metadata: Metadata, condition: Condition, actions: seq<Action>, linkedItems: seq<string>)

  /** The part of a profile's systemProperties the service uses; lastUpdated is a clock reading. */
  datatype SystemProperties = SystemProperties(
    pastEvents: map<string, int>,
    scoreModifiers: Option<map<string, Option<Int32>>>,
    lastUpdated: Option<int>)

  datatype Profile = Profile(
    itemId: string, segments: set<string>, scores: map<string, int>, systemProperties: SystemProperties)

  /** What a deletion reports: the metadata of every impacted segment and scoring. */
  datatype DependentMetadata = DependentMetadata(segments: seq<Metadata>, scorings: seq<Metadata>)

  /** The classification of one profile. */
  datatype SegmentsAndScores = SegmentsAndScores(segments: set<string>, scores: map<string, Int32>)

  const SetEventOccurenceCountAction := "setEventOccurenceCountAction"
}
