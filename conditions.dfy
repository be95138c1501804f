/** The condition tree (org.apache.unomi.api.conditions.Condition) as a value: a condition type id,
    the system tags of that type, and the parameter values. Parameters are an association list whose
    order is the iteration order of the parameter map; lookups take the first entry with a name. */
module Conditions {
  import opened Wrappers

  // Condition type ids the service treats specially.
  const BooleanCondition := "booleanCondition"
  const ProfileSegmentCondition := "profileSegmentCondition"
  const ScoringCondition := "scoringCondition"
  const NotCondition := "notCondition"
  const ProfilePropertyCondition := "profilePropertyCondition"
  const SessionPropertyCondition := "sessionPropertyCondition"

  // System tags of condition types.
  const EventConditionTag := "eventCondition"
  const ProfileConditionTag := "profileCondition"

  // Parameter names.
  const SubConditionsParam := "subConditions"
  const SubConditionParam := "subCondition"
  const SegmentsParam := "segments"
  const ScoringPlanIdParam := "scoringPlanId"
  const OperatorParam := "operator"
  const PropertyNameParam := "propertyName"
  const ComparisonOperatorParam := "comparisonOperator"
  const PropertyValueParam := "propertyValue"
  const PropertyValueDateParam := "propertyValueDate"
  const NumberOfDaysParam := "numberOfDays"
  const FromDateParam := "fromDate"
  const ToDateParam := "toDate"
  const GeneratedPropertyKeyParam := "generatedPropertyKey"

  /** A parameter value: the closed set of shapes the service inspects. */
  datatype Value =
    | StrValue(str: string)
    | IntValue(num: int)
    | StrListValue(strs: seq<string>)
    | CondValue(cond: Condition)
    | CondListValue(conds: seq<Condition>)

  type Params = seq<(string, Value)>

  datatype Condition = Condition(typeId: string, systemTags: set<string>, params: Params)

  /** Position of the first parameter called name. */
  function ParamIndex(ps: Params, name: string): (r: Option<nat>)
    ensures r.Some? ==> r.value < |ps| && ps[r.value].0 == name
    ensures r.Some? ==> forall j :: 0 <= j < r.value ==> ps[j].0 != name
    ensures r.None? ==> forall j :: 0 <= j < |ps| ==> ps[j].0 != name
  {
    if |ps| == 0 then None
    else if ps[0].0 == name then Some(0)
    else match ParamIndex(ps[1..], name)
      case None => None
      case Some(i) => Some(i + 1)
  }

  /** Two parameter lists with the same names position by position find every name at the same place. */
  lemma ParamIndexSameNames(ps: Params, qs: Params, name: string)
    requires |ps| == |qs|
    requires forall j :: 0 <= j < |ps| ==> ps[j].0 == qs[j].0
    ensures ParamIndex(ps, name) == ParamIndex(qs, name)
  {
  }

  /** Condition.getParameter: None stands for a null result. */
  function GetParameter(c: Condition, name: string): (r: Option<Value>)
    ensures r.Some? <==> exists j :: 0 <= j < |c.params| && c.params[j].0 == name
    ensures r.Some? ==> r.value < c
  {
    match ParamIndex(c.params, name)
    case None => None
    case Some(i) => Some(c.params[i].1)
  }

  /** Condition.setParameter: replaces the value of the first entry called name, or appends one. */
  function SetParameter(c: Condition, name: string, v: Value): (r: Condition)
    ensures r.typeId == c.typeId && r.systemTags == c.systemTags
    ensures GetParameter(r, name) == Some(v)
    ensures forall other :: other != name ==> GetParameter(r, other) == GetParameter(c, other)
    ensures |c.params| <= |r.params|
    ensures forall j :: 0 <= j < |c.params| && c.params[j].0 != name ==> r.params[j] == c.params[j]
  {
    match ParamIndex(c.params, name)
    case Some(i) =>
      var r := c.(params := c.params[i := (name, v)]);
      assert forall other :: ParamIndex(r.params, other) == ParamIndex(c.params, other) by {
        forall other { ParamIndexSameNames(r.params, c.params, other); }
      }
      r
    case None =>
      var r := c.(params := c.params + [(name, v)]);
      assert forall other :: ParamIndex(r.params, other) == AppendedIndex(c.params, (name, v), other) by {
        forall other { AppendIndex(c.params, (name, v), other); }
      }
      r
  }

  /** Where a name is found once an entry e has been appended. */
  function AppendedIndex(ps: Params, e: (string, Value), name: string): Option<nat> {
    if ParamIndex(ps, name).Some? then ParamIndex(ps, name)
    else if e.0 == name then Some(|ps|)
    else None
  }

  lemma {:induction false} AppendIndex(ps: Params, e: (string, Value), name: string)
    ensures ParamIndex(ps + [e], name) == AppendedIndex(ps, e, name)
  {
    if |ps| > 0 {
      assert (ps + [e])[1..] == ps[1..] + [e];
      AppendIndex(ps[1..], e, name);
    }
  }

  /** The "subConditions" parameter read as a list of conditions; None when it is absent (a
      parameter of another type, a ClassCastException in Java, is read as absent too). */
  function SubConditions(c: Condition): (r: Option<seq<Condition>>)
    ensures r.Some? ==> forall j :: 0 <= j < |r.value| ==> r.value[j] < c
  {
    match GetParameter(c, SubConditionsParam)
    case Some(CondListValue(subs)) => Some(subs)
    case _ => None
  }

  /** The "segments" parameter of a profileSegmentCondition, empty when absent. */
  function SegmentIds(c: Condition): seq<string> {
    match GetParameter(c, SegmentsParam)
    case Some(StrListValue(ids)) => ids
    case _ => []
  }

  /** `x.equals(condition.getParameter(name))` for a string x. */
  predicate ParamEquals(c: Condition, name: string, x: string) {
    GetParameter(c, name) == Some(StrValue(x))
  }
}
