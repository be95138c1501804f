/** The rules the service derives from a definition's condition (getAutoGeneratedRules) and the
    bookkeeping of the items each rule is linked to (updateAutoGeneratedRules,
    clearAutoGeneratedRules), over a rule store that maps a rule id to the rule. */
module AutoRules {
  import opened Wrappers
  import opened Lists
  import opened Conditions
  import opened Definitions
  import opened RuleKeys

  /** A node that counts past events: its type is tagged as an event condition and not as a
      profile condition. The walk does not descend into it. */
  predicate IsTrigger(c: Condition) {
    EventConditionTag in c.systemTags && ProfileConditionTag !in c.systemTags
  }

  /** What a walk reads besides the tree: the definition whose rules are derived, the rules the
      rules service holds when the walk starts, and the serializer and digest of the key. */
  datatype WalkContext = WalkContext(metadata: Metadata, ruleStore: map<string, Rule>,
                                     serialize: Serializer, md5: Digest)

  /** A rule the walk hands back. A rule it creates refers to its trigger's parent condition object,
      which later triggers under the same parent still stamp; such a rule is pending until the
      walk of that parent ends and its final state is known. */
  datatype Draft = Draft(rule: Rule, pending: bool)

  /** A call of updateExistingProfilesForPastEventCondition made for a new rule: the trigger, its
      parent as it is at that moment, and the key the parent has just been stamped with. */
  datatype Backfill = Backfill(eventCondition: Condition, parent: Condition, key: string)

  /** The walk of one node: the node and its parent as the walk leaves them, with the rules and
      the backfills it produced, in order. */
  datatype Walked = Walked(condition: Condition, parent: Option<Condition>, drafts: seq<Draft>, backfills: seq<Backfill>)

  /** The state of the loop over a node's parameter values. */
  datatype Progress = Progress(node: Condition, drafts: seq<Draft>, backfills: seq<Backfill>)

  /** The rule created for a new key: hidden, named after the definition, its condition the
      trigger and its single action counting the trigger's occurrences under the parent. */
  function NewRule(md: Metadata, key: string, trigger: Condition, parent: Condition): Rule {
    Rule(Metadata(key, md.scope, "Auto generated rule for " + md.name, "", true, true, false),
         trigger, [Action(SetEventOccurenceCountAction, parent)], [md.id])
  }

  /** The rule already stored under the key, with the definition's id appended to its links. */
  function Relinked(existing: Rule, itemId: string): Rule {
    existing.(linkedItems := existing.linkedItems + [itemId])
  }

  /** At the end of a node's walk, the rules its trigger children created see the node's final
      state as their past-event condition. */
  function Settle(drafts: seq<Draft>, node: Condition): (r: seq<Draft>)
    ensures |r| == |drafts|
    ensures forall i :: 0 <= i < |r| ==> !r[i].pending
    ensures forall i :: 0 <= i < |r| ==> r[i].rule.metadata == drafts[i].rule.metadata &&
                                         r[i].rule.linkedItems == drafts[i].rule.linkedItems
    ensures forall i :: 0 <= i < |r| && !drafts[i].pending ==> r[i] == drafts[i]
  {
    seq(|drafts|, i requires 0 <= i < |drafts| =>
      if drafts[i].pending
      then Draft(drafts[i].rule.(actions := [Action(SetEventOccurenceCountAction, node)]), false)
      else drafts[i])
  }

  /** The recursion changed the value of parameter i in place; the node still holds that value
      unless a stamp has replaced the entry meanwhile. */
  function WriteBack(node: Condition, i: nat, entry: (string, Value), v: Value): Condition {
    if i < |node.params| && node.params[i] == entry then node.(params := node.params[i := (entry.0, v)])
    else node
  }

  function ParentOr(w: Walked, node: Condition): Condition {
    match w.parent
    case Some(p) => p
    case None => node
  }

  /** getAutoGeneratedRules on a trigger: it stamps its parent with its key and yields the stored
      rule for the key, relinked, or a new rule and a backfill; a null parent is dereferenced and
      throws, a null key yields nothing. */
  function TriggerStep(ctx: WalkContext, c: Condition, parent: Option<Condition>): Result<Walked> {
    match GeneratedPropertyKey(c, parent, ctx.serialize, ctx.md5)
    case Err(e) => Err(e)
    case Ok(None) => Ok(Walked(c, parent, [], []))
    case Ok(Some(key)) =>
      var p := SetParameter(parent.value, GeneratedPropertyKeyParam, StrValue(key));
      if key in ctx.ruleStore
      then Ok(Walked(c, Some(p), [Draft(Relinked(ctx.ruleStore[key], ctx.metadata.id), false)], []))
      else Ok(Walked(c, Some(p), [Draft(NewRule(ctx.metadata, key, c, p), true)], [Backfill(c, p, key)]))
  }

  /** getAutoGeneratedRules on one node: any node but a trigger is walked parameter by parameter. */
  function WalkNode(ctx: WalkContext, c: Condition, parent: Option<Condition>): Result<Walked>
    decreases c, 2
  {
    if IsTrigger(c) then TriggerStep(ctx, c, parent)
    else
      match WalkParams(ctx, c.params, 0, Progress(c, [], []), c)
      case Err(e) => Err(e)
      case Ok(pr) => Ok(Walked(pr.node, parent, Settle(pr.drafts, pr.node), pr.backfills))
  }

  /** The loop over a snapshot of the node's parameter values, from position i on: a condition is
      walked with the node as its parent, a list of conditions element by element. */
  function WalkParams(ctx: WalkContext, snapshot: Params, i: nat, pr: Progress, ghost orig: Condition): Result<Progress>
    requires i <= |snapshot|
    requires forall k :: 0 <= k < |snapshot| ==> snapshot[k].1 < orig
    decreases orig, 1, |snapshot| - i
  {
    if i == |snapshot| then Ok(pr)
    else
      match snapshot[i].1
      case CondValue(child) =>
        (match WalkNode(ctx, child, Some(pr.node))
         case Err(e) => Err(e)
         case Ok(w) =>
           var node := WriteBack(ParentOr(w, pr.node), i, snapshot[i], CondValue(w.condition));
           WalkParams(ctx, snapshot, i + 1, Progress(node, pr.drafts + w.drafts, pr.backfills + w.backfills), orig))
      case CondListValue(elems) =>
        (match WalkList(ctx, elems, 0, pr, [], orig)
         case Err(e) => Err(e)
         case Ok(lw) =>
           var node := WriteBack(lw.0.node, i, snapshot[i], CondListValue(lw.1));
           WalkParams(ctx, snapshot, i + 1, lw.0.(node := node), orig))
      case _ => WalkParams(ctx, snapshot, i + 1, pr, orig)
  }

  /** The loop over a list-valued parameter from element j on; done holds the elements already
      walked, as the walk left them. */
  function WalkList(ctx: WalkContext, elems: seq<Condition>, j: nat, pr: Progress, done: seq<Condition>,
                    ghost orig: Condition): Result<(Progress, seq<Condition>)>
    requires j <= |elems|
    requires forall k :: 0 <= k < |elems| ==> elems[k] < orig
    decreases orig, 0, |elems| - j
  {
    if j == |elems| then Ok((pr, done))
    else
      match WalkNode(ctx, elems[j], Some(pr.node))
      case Err(e) => Err(e)
      case Ok(w) =>
        WalkList(ctx, elems, j + 1, Progress(ParentOr(w, pr.node), pr.drafts + w.drafts, pr.backfills + w.backfills),
                 done + [w.condition], orig)
  }

  /** getAutoGeneratedRules itself: the recursion and its loop over the parameter values,
      returning what the source leaves in the tree, in the parent and in the rule list. */
  method GetAutoGeneratedRules(ctx: WalkContext, c: Condition, parent: Option<Condition>) returns (r: Result<Walked>)
    ensures r == WalkNode(ctx, c, parent)
    decreases c, 1
  {
    if IsTrigger(c) {
      return TriggerStep(ctx, c, parent);
    }
    var snapshot := c.params;
    assert forall k :: 0 <= k < |snapshot| ==> snapshot[k].1 < c by {
      forall k | 0 <= k < |snapshot| ensures snapshot[k].1 < c {
        assert snapshot[k] in c.params;
      }
    }
    var pr := Progress(c, [], []);
    var i := 0;
    while i < |snapshot|
      invariant 0 <= i <= |snapshot|
      invariant WalkParams(ctx, snapshot, i, pr, c) == WalkParams(ctx, snapshot, 0, Progress(c, [], []), c)
    {
      match snapshot[i].1 {
        case CondValue(child) =>
          var w := GetAutoGeneratedRules(ctx, child, Some(pr.node));
          if w.Err? {
            return Err(w.error);
          }
          var node := WriteBack(ParentOr(w.value, pr.node), i, snapshot[i], CondValue(w.value.condition));
          pr := Progress(node, pr.drafts + w.value.drafts, pr.backfills + w.value.backfills);
        case CondListValue(elems) =>
          assert forall k :: 0 <= k < |elems| ==> elems[k] < c by {
            forall k | 0 <= k < |elems| ensures elems[k] < c {
              assert elems[k] in elems;
            }
          }
          var lw := WalkElements(ctx, elems, pr, c);
          if lw.Err? {
            return Err(lw.error);
          }
          var node := WriteBack(lw.value.0.node, i, snapshot[i], CondListValue(lw.value.1));
          pr := lw.value.0.(node := node);
        case _ =>
      }
      i := i + 1;
    }
    return Ok(Walked(pr.node, parent, Settle(pr.drafts, pr.node), pr.backfills));
  }

  /** The inner loop of getAutoGeneratedRules over the conditions of a list-valued parameter. */
  method WalkElements(ctx: WalkContext, elems: seq<Condition>, pr: Progress, ghost orig: Condition)
    returns (r: Result<(Progress, seq<Condition>)>)
    requires forall k :: 0 <= k < |elems| ==> elems[k] < orig
    ensures r == WalkList(ctx, elems, 0, pr, [], orig)
    decreases orig, 0
  {
    var lpr := pr;
    var done: seq<Condition> := [];
    var j := 0;
    while j < |elems|
      invariant 0 <= j <= |elems|
      invariant WalkList(ctx, elems, j, lpr, done, orig) == WalkList(ctx, elems, 0, pr, [], orig)
    {
      var w := GetAutoGeneratedRules(ctx, elems[j], Some(lpr.node));
      if w.Err? {
        return Err(w.error);
      }
      lpr := Progress(ParentOr(w.value, lpr.node), lpr.drafts + w.value.drafts, lpr.backfills + w.value.backfills);
      done := done + [w.value.condition];
      j := j + 1;
    }
    return Ok((lpr, done));
  }

  // ---------------------------------------------------------------------------------------------
  // What the walk yields.

  /** A rule store whose rules are stored under their own ids. */
  predicate StoreKeyed(store: map<string, Rule>) {
    forall k :: k in store ==> store[k].metadata.id == k
  }

  /** A generated key: the prefix followed by hex digits. */
  predicate IsGeneratedKey(key: string) {
    |key| >= |KeyPrefix| && key[..|KeyPrefix|] == KeyPrefix &&
    forall i :: |KeyPrefix| <= i < |key| ==> IsHexDigit(key[i])
  }

  /** Every rule the walk yields has a generated id and is linked to the definition. A rule the
      store held keeps its links and gains the definition's id at the end; a new rule is hidden,
      links the definition alone, and counts the occurrences of a trigger. */
  predicate DraftOk(ctx: WalkContext, d: Draft) {
    var id := d.rule.metadata.id;
    && IsGeneratedKey(id)
    && ctx.metadata.id in d.rule.linkedItems
    && (id in ctx.ruleStore ==> d.rule == Relinked(ctx.ruleStore[id], ctx.metadata.id) && !d.pending)
    && (id !in ctx.ruleStore ==>
          && d.rule.linkedItems == [ctx.metadata.id]
          && d.rule.metadata.hidden && d.rule.metadata.scope == ctx.metadata.scope
          && IsTrigger(d.rule.condition)
          && |d.rule.actions| == 1 && d.rule.actions[0].actionTypeId == SetEventOccurenceCountAction)
  }

  /** A backfill is made for a trigger, under a parent stamped with its generated key. */
  predicate BackfillOk(b: Backfill) {
    IsTrigger(b.eventCondition) && IsGeneratedKey(b.key) &&
    GetParameter(b.parent, GeneratedPropertyKeyParam) == Some(StrValue(b.key))
  }

  predicate DraftsOk(ctx: WalkContext, ds: seq<Draft>) {
    forall i :: 0 <= i < |ds| ==> DraftOk(ctx, ds[i])
  }

  predicate BackfillsOk(bs: seq<Backfill>) {
    forall i :: 0 <= i < |bs| ==> BackfillOk(bs[i])
  }

  lemma KeyIsGenerated(c: Condition, p: Condition, serialize: Serializer, md5: Digest)
    requires serialize(KeyInputFor(c, p)).Some?
    ensures IsGeneratedKey(GeneratedPropertyKey(c, Some(p), serialize, md5).value.value)
  {
    KeyShape(c, p, serialize, md5);
  }

  lemma DraftsOkAppend(ctx: WalkContext, a: seq<Draft>, b: seq<Draft>)
    requires DraftsOk(ctx, a) && DraftsOk(ctx, b)
    ensures DraftsOk(ctx, a + b)
  {
    assert forall i :: |a| <= i < |a + b| ==> (a + b)[i] == b[i - |a|];
  }

  lemma BackfillsOkAppend(a: seq<Backfill>, b: seq<Backfill>)
    requires BackfillsOk(a) && BackfillsOk(b)
    ensures BackfillsOk(a + b)
  {
    assert forall i :: |a| <= i < |a + b| ==> (a + b)[i] == b[i - |a|];
  }

  /** Below the root the walk never fails and always hands a parent back; what it yields is well
      formed; and the walk of a node that is not a trigger leaves no rule pending. */
  lemma {:induction false} WalkNodeFacts(ctx: WalkContext, c: Condition, parent: Option<Condition>)
    requires StoreKeyed(ctx.ruleStore)
    ensures parent.Some? ==> WalkNode(ctx, c, parent).Ok? && WalkNode(ctx, c, parent).value.parent.Some?
    ensures WalkNode(ctx, c, parent).Ok? ==>
              DraftsOk(ctx, WalkNode(ctx, c, parent).value.drafts) &&
              BackfillsOk(WalkNode(ctx, c, parent).value.backfills)
    ensures WalkNode(ctx, c, parent).Ok? && !IsTrigger(c) ==>
              forall i :: 0 <= i < |WalkNode(ctx, c, parent).value.drafts| ==> !WalkNode(ctx, c, parent).value.drafts[i].pending
    decreases c, 2
  {
    if IsTrigger(c) {
      TriggerStepFacts(ctx, c, parent);
    } else {
      assert forall k :: 0 <= k < |c.params| ==> c.params[k].1 < c by {
        forall k | 0 <= k < |c.params| ensures c.params[k].1 < c {
          assert c.params[k] in c.params;
        }
      }
      WalkParamsFacts(ctx, c.params, 0, Progress(c, [], []), c);
    }
  }

  /** The trigger case: the walk hands the stamped parent back when the key can be made, and
      what it yields is well formed. */
  lemma TriggerStepFacts(ctx: WalkContext, c: Condition, parent: Option<Condition>)
    requires StoreKeyed(ctx.ruleStore) && IsTrigger(c)
    ensures parent.Some? ==> TriggerStep(ctx, c, parent).Ok? && TriggerStep(ctx, c, parent).value.parent.Some?
    ensures TriggerStep(ctx, c, parent).Ok? ==>
              DraftsOk(ctx, TriggerStep(ctx, c, parent).value.drafts) &&
              BackfillsOk(TriggerStep(ctx, c, parent).value.backfills)
  {
    if parent.Some? && ctx.serialize(KeyInputFor(c, parent.value)).Some? {
      KeyIsGenerated(c, parent.value, ctx.serialize, ctx.md5);
      var key := GeneratedPropertyKey(c, parent, ctx.serialize, ctx.md5).value.value;
      var p := SetParameter(parent.value, GeneratedPropertyKeyParam, StrValue(key));
      assert GetParameter(p, GeneratedPropertyKeyParam) == Some(StrValue(key));
      if key !in ctx.ruleStore {
        assert BackfillOk(Backfill(c, p, key));
      }
    }
  }

  lemma {:induction false} WalkParamsFacts(ctx: WalkContext, snapshot: Params, i: nat, pr: Progress, orig: Condition)
    requires StoreKeyed(ctx.ruleStore)
    requires i <= |snapshot|
    requires forall k :: 0 <= k < |snapshot| ==> snapshot[k].1 < orig
    requires DraftsOk(ctx, pr.drafts) && BackfillsOk(pr.backfills)
    ensures WalkParams(ctx, snapshot, i, pr, orig).Ok?
    ensures DraftsOk(ctx, WalkParams(ctx, snapshot, i, pr, orig).value.drafts)
    ensures BackfillsOk(WalkParams(ctx, snapshot, i, pr, orig).value.backfills)
    decreases orig, 1, |snapshot| - i
  {
    if i < |snapshot| {
      match snapshot[i].1 {
        case CondValue(child) =>
          WalkNodeFacts(ctx, child, Some(pr.node));
          var w := WalkNode(ctx, child, Some(pr.node)).value;
          DraftsOkAppend(ctx, pr.drafts, w.drafts);
          BackfillsOkAppend(pr.backfills, w.backfills);
          var node := WriteBack(ParentOr(w, pr.node), i, snapshot[i], CondValue(w.condition));
          var next := Progress(node, pr.drafts + w.drafts, pr.backfills + w.backfills);
          assert WalkParams(ctx, snapshot, i, pr, orig) == WalkParams(ctx, snapshot, i + 1, next, orig);
          WalkParamsFacts(ctx, snapshot, i + 1, next, orig);
        case CondListValue(elems) =>
          assert forall k :: 0 <= k < |elems| ==> elems[k] < orig by {
            forall k | 0 <= k < |elems| ensures elems[k] < orig {
              assert elems[k] in elems;
            }
          }
          WalkListFacts(ctx, elems, 0, pr, [], orig);
          var lw := WalkList(ctx, elems, 0, pr, [], orig).value;
          var node := WriteBack(lw.0.node, i, snapshot[i], CondListValue(lw.1));
          var next := lw.0.(node := node);
          assert WalkParams(ctx, snapshot, i, pr, orig) == WalkParams(ctx, snapshot, i + 1, next, orig);
          WalkParamsFacts(ctx, snapshot, i + 1, next, orig);
        case _ =>
          assert WalkParams(ctx, snapshot, i, pr, orig) == WalkParams(ctx, snapshot, i + 1, pr, orig);
          WalkParamsFacts(ctx, snapshot, i + 1, pr, orig);
      }
    }
  }

  lemma {:induction false} WalkListFacts(ctx: WalkContext, elems: seq<Condition>, j: nat, pr: Progress,
                                         done: seq<Condition>, orig: Condition)
    requires StoreKeyed(ctx.ruleStore)
    requires j <= |elems|
    requires forall k :: 0 <= k < |elems| ==> elems[k] < orig
    requires DraftsOk(ctx, pr.drafts) && BackfillsOk(pr.backfills)
    ensures WalkList(ctx, elems, j, pr, done, orig).Ok?
    ensures DraftsOk(ctx, WalkList(ctx, elems, j, pr, done, orig).value.0.drafts)
    ensures BackfillsOk(WalkList(ctx, elems, j, pr, done, orig).value.0.backfills)
    decreases orig, 0, |elems| - j
  {
    if j < |elems| {
      WalkNodeFacts(ctx, elems[j], Some(pr.node));
      var w := WalkNode(ctx, elems[j], Some(pr.node)).value;
      DraftsOkAppend(ctx, pr.drafts, w.drafts);
      BackfillsOkAppend(pr.backfills, w.backfills);
      WalkListFacts(ctx, elems, j + 1, Progress(ParentOr(w, pr.node), pr.drafts + w.drafts, pr.backfills + w.backfills),
                    done + [w.condition], orig);
    }
  }

  /** The walk from the root throws exactly when the root itself is a trigger: its null parent
      is dereferenced. */
  lemma RootWalkFailsIffTrigger(ctx: WalkContext, c: Condition)
    requires StoreKeyed(ctx.ruleStore)
    ensures WalkNode(ctx, c, None).Err? <==> IsTrigger(c)
    ensures WalkNode(ctx, c, None).Err? ==> WalkNode(ctx, c, None).error == NullParentCondition
  {
    if !IsTrigger(c) {
      assert forall k :: 0 <= k < |c.params| ==> c.params[k].1 < c by {
        forall k | 0 <= k < |c.params| ensures c.params[k].1 < c {
          assert c.params[k] in c.params;
        }
      }
      WalkParamsFacts(ctx, c.params, 0, Progress(c, [], []), c);
    }
  }

  /** No trigger is reachable through condition-valued parameters. */
  predicate TriggerFree(c: Condition)
    decreases c, 1
  {
    !IsTrigger(c) && forall k :: 0 <= k < |c.params| ==> ValueTriggerFree(c.params[k].1, c)
  }

  predicate ValueTriggerFree(v: Value, ghost parent: Condition)
    requires v < parent
    decreases parent, 0
  {
    match v
    case CondValue(x) => TriggerFree(x)
    case CondListValue(xs) => forall y :: y in xs ==> TriggerFree(y)
    case _ => true
  }

  /** A tree without triggers comes back unchanged, with no rule and no backfill. */
  lemma {:induction false} WalkTriggerFree(ctx: WalkContext, c: Condition, parent: Option<Condition>)
    requires TriggerFree(c)
    ensures WalkNode(ctx, c, parent) == Ok(Walked(c, parent, [], []))
    decreases c, 2
  {
    var pr := Progress(c, [], []);
    assert forall k :: 0 <= k < |c.params| ==> c.params[k].1 < c by {
      forall k | 0 <= k < |c.params| ensures c.params[k].1 < c {
        assert c.params[k] in c.params;
      }
    }
    WalkParamsTriggerFree(ctx, c.params, 0, c);
  }

  lemma {:induction false} WalkParamsTriggerFree(ctx: WalkContext, snapshot: Params, i: nat, orig: Condition)
    requires i <= |snapshot| && snapshot == orig.params
    requires forall k :: 0 <= k < |snapshot| ==> snapshot[k].1 < orig
    requires TriggerFree(orig)
    ensures WalkParams(ctx, snapshot, i, Progress(orig, [], []), orig) == Ok(Progress(orig, [], []))
    decreases orig, 1, |snapshot| - i
  {
    var pr := Progress(orig, [], []);
    if i < |snapshot| {
      assert ValueTriggerFree(snapshot[i].1, orig);
      match snapshot[i].1 {
        case CondValue(child) =>
          WalkTriggerFree(ctx, child, Some(orig));
          var w := WalkNode(ctx, child, Some(orig)).value;
          assert w == Walked(child, Some(orig), [], []);
          assert snapshot[i] == (snapshot[i].0, CondValue(child));
          assert orig.params[i := (snapshot[i].0, CondValue(child))] == orig.params;
          assert WriteBack(ParentOr(w, orig), i, snapshot[i], CondValue(w.condition)) == orig;
          assert Progress(orig, pr.drafts + w.drafts, pr.backfills + w.backfills) == pr;
          WalkParamsTriggerFree(ctx, snapshot, i + 1, orig);
        case CondListValue(elems) =>
          assert forall k :: 0 <= k < |elems| ==> elems[k] < orig by {
            forall k | 0 <= k < |elems| ensures elems[k] < orig {
              assert elems[k] in elems;
            }
          }
          assert elems[..0] == [];
          WalkListTriggerFree(ctx, elems, 0, orig);
          assert snapshot[i] == (snapshot[i].0, CondListValue(elems));
          assert orig.params[i := (snapshot[i].0, CondListValue(elems))] == orig.params;
          assert WriteBack(orig, i, snapshot[i], CondListValue(elems)) == orig;
          WalkParamsTriggerFree(ctx, snapshot, i + 1, orig);
        case _ =>
          WalkParamsTriggerFree(ctx, snapshot, i + 1, orig);
      }
    }
  }

  lemma {:induction false} WalkListTriggerFree(ctx: WalkContext, elems: seq<Condition>, j: nat, orig: Condition)
    requires j <= |elems|
    requires forall k :: 0 <= k < |elems| ==> elems[k] < orig
    requires forall k :: 0 <= k < |elems| ==> TriggerFree(elems[k])
    ensures WalkList(ctx, elems, j, Progress(orig, [], []), elems[..j], orig) == Ok((Progress(orig, [], []), elems))
    decreases orig, 0, |elems| - j
  {
    if j < |elems| {
      WalkTriggerFree(ctx, elems[j], Some(orig));
      var pr := Progress(orig, [], []);
      var w := WalkNode(ctx, elems[j], Some(orig)).value;
      assert w == Walked(elems[j], Some(orig), [], []);
      assert Progress(ParentOr(w, orig), pr.drafts + w.drafts, pr.backfills + w.backfills) == pr;
      assert elems[..j] + [w.condition] == elems[..j + 1];
      WalkListTriggerFree(ctx, elems, j + 1, orig);
    } else {
      assert elems[..j] == elems;
    }
  }

  /** A trigger under a parent whose key serializes stamps the parent with the key and yields
      exactly one rule with that id: the stored one relinked, or a new one with a backfill. */
  lemma {:induction false} TriggerStampsParent(ctx: WalkContext, c: Condition, p: Condition)
    requires StoreKeyed(ctx.ruleStore)
    requires IsTrigger(c) && ctx.serialize(KeyInputFor(c, p)).Some?
    ensures var key := GeneratedPropertyKey(c, Some(p), ctx.serialize, ctx.md5).value.value;
            var w := WalkNode(ctx, c, Some(p));
            && w.Ok? && w.value.condition == c
            && w.value.parent.Some?
            && GetParameter(w.value.parent.value, GeneratedPropertyKeyParam) == Some(StrValue(key))
            && (forall other :: other != GeneratedPropertyKeyParam ==>
                  GetParameter(w.value.parent.value, other) == GetParameter(p, other))
            && |w.value.drafts| == 1 && w.value.drafts[0].rule.metadata.id == key
            && (key in ctx.ruleStore <==> w.value.backfills == [])
  {
    var key := GeneratedPropertyKey(c, Some(p), ctx.serialize, ctx.md5).value.value;
    if key in ctx.ruleStore {
      assert Relinked(ctx.ruleStore[key], ctx.metadata.id).metadata.id == key;
    }
  }

  /** A trigger whose key does not serialize is skipped: its parent is not stamped. */
  lemma UnserializableTriggerSkipped(ctx: WalkContext, c: Condition, p: Condition)
    requires IsTrigger(c) && ctx.serialize(KeyInputFor(c, p)).None?
    ensures WalkNode(ctx, c, Some(p)) == Ok(Walked(c, Some(p), [], []))
  {
  }

  // ---------------------------------------------------------------------------------------------
  // Linked items.

  /** clearAutoGeneratedRules on one loaded rule: the first occurrence of the item is dropped from
      its links; a rule left with no link is removed, otherwise the stored rule's links are
      replaced (an update of a rule the store no longer holds changes nothing). */
  function ClearOne(store: map<string, Rule>, loaded: Rule, itemId: string): map<string, Rule> {
    var id := loaded.metadata.id;
    var links := RemoveFirst(loaded.linkedItems, itemId);
    if links == [] then store - {id}
    else if id in store then store[id := store[id].(linkedItems := links)]
    else store
  }

  /** The three outcomes of clearing one loaded rule. */
  lemma ClearOneCases(store: map<string, Rule>, loaded: Rule, itemId: string)
    ensures var id, links := loaded.metadata.id, RemoveFirst(loaded.linkedItems, itemId);
            && (links == [] ==> ClearOne(store, loaded, itemId) == store - {id})
            && (links != [] && id in store ==>
                  ClearOne(store, loaded, itemId) == store[id := store[id].(linkedItems := links)])
            && (links != [] && id !in store ==> ClearOne(store, loaded, itemId) == store)
  {
  }

  /** Clearing one rule keeps every stored rule under its own id. */
  lemma ClearOneKeyed(store: map<string, Rule>, loaded: Rule, itemId: string)
    ensures StoreKeyed(store) ==> StoreKeyed(ClearOne(store, loaded, itemId))
  {
  }

  /** clearAutoGeneratedRules over the loaded rules, in order. */
  function ClearedRules(store: map<string, Rule>, loaded: seq<Rule>, itemId: string): map<string, Rule> {
    if |loaded| == 0 then store
    else ClearOne(ClearedRules(store, loaded[..|loaded| - 1], itemId), loaded[|loaded| - 1], itemId)
  }

  predicate DistinctIds(rules: seq<Rule>) {
    forall i, j :: 0 <= i < j < |rules| ==> rules[i].metadata.id != rules[j].metadata.id
  }

  /** For loaded rules with distinct ids, each one loses the item from its links and is removed
      exactly when no link is left; every other stored rule is untouched. */
  lemma ClearedRulesAt(store: map<string, Rule>, loaded: seq<Rule>, itemId: string, k: string)
    requires DistinctIds(loaded)
    ensures forall i :: 0 <= i < |loaded| && loaded[i].metadata.id == k ==>
              var links := RemoveFirst(loaded[i].linkedItems, itemId);
              && (k in ClearedRules(store, loaded, itemId) <==> links != [] && k in store)
              && (k in ClearedRules(store, loaded, itemId) ==>
                    ClearedRules(store, loaded, itemId)[k] == store[k].(linkedItems := links))
    ensures (forall i :: 0 <= i < |loaded| ==> loaded[i].metadata.id != k) ==>
              (k in ClearedRules(store, loaded, itemId) <==> k in store) &&
              (k in store ==> ClearedRules(store, loaded, itemId)[k] == store[k])
  {
    forall i | 0 <= i < |loaded| && loaded[i].metadata.id == k
      ensures var links := RemoveFirst(loaded[i].linkedItems, itemId);
              && (k in ClearedRules(store, loaded, itemId) <==> links != [] && k in store)
              && (k in ClearedRules(store, loaded, itemId) ==>
                    ClearedRules(store, loaded, itemId)[k] == store[k].(linkedItems := links))
    {
      ClearedRulesLoaded(store, loaded, itemId, i);
    }
    if forall i :: 0 <= i < |loaded| ==> loaded[i].metadata.id != k {
      ClearedRulesOther(store, loaded, itemId, k);
    }
  }

  /** A rule none of the loaded rules names is untouched. */
  lemma {:induction false} ClearedRulesOther(store: map<string, Rule>, loaded: seq<Rule>, itemId: string, k: string)
    requires forall i :: 0 <= i < |loaded| ==> loaded[i].metadata.id != k
    ensures k in ClearedRules(store, loaded, itemId) <==> k in store
    ensures k in store ==> ClearedRules(store, loaded, itemId)[k] == store[k]
  {
    if |loaded| > 0 {
      var n := |loaded| - 1;
      assert forall i :: 0 <= i < n ==> loaded[..n][i] == loaded[i];
      ClearedRulesOther(store, loaded[..n], itemId, k);
      ClearOneAt(ClearedRules(store, loaded[..n], itemId), loaded[n], itemId, k);
    }
  }

  lemma ClearOneAt(store: map<string, Rule>, loaded: Rule, itemId: string, k: string)
    ensures var r, links := ClearOne(store, loaded, itemId), RemoveFirst(loaded.linkedItems, itemId);
            && (k != loaded.metadata.id ==> (k in r <==> k in store) && (k in store ==> r[k] == store[k]))
            && (k == loaded.metadata.id ==> (k in r <==> links != [] && k in store) &&
                                            (k in r ==> r[k] == store[k].(linkedItems := links)))
  {
  }

  /** The loaded rule at position i loses the item's first link, and goes when none is left. */
  lemma {:induction false} ClearedRulesLoaded(store: map<string, Rule>, loaded: seq<Rule>, itemId: string, i: nat)
    requires DistinctIds(loaded) && i < |loaded|
    ensures var k, links := loaded[i].metadata.id, RemoveFirst(loaded[i].linkedItems, itemId);
            && (k in ClearedRules(store, loaded, itemId) <==> links != [] && k in store)
            && (k in ClearedRules(store, loaded, itemId) ==>
                  ClearedRules(store, loaded, itemId)[k] == store[k].(linkedItems := links))
  {
    var n := |loaded| - 1;
    var front := loaded[..n];
    var k := loaded[i].metadata.id;
    assert forall j :: 0 <= j < n ==> front[j] == loaded[j];
    if i < n {
      assert DistinctIds(front);
      ClearedRulesLoaded(store, front, itemId, i);
      assert loaded[n].metadata.id != k;
    } else {
      assert forall j :: 0 <= j < n ==> front[j].metadata.id != k;
      ClearedRulesOther(store, front, itemId, k);
    }
    ClearOneAt(ClearedRules(store, front, itemId), loaded[n], itemId, k);
  }

  /** The rules of store, with the definition's id among their links. */
  function LinkedIds(store: map<string, Rule>, itemId: string): set<string> {
    set k | k in store && itemId in store[k].linkedItems
  }

  /** rulesService.setRule for each derived rule, in order: a later rule with the same id wins. */
  function SavedRules(store: map<string, Rule>, derived: seq<Rule>): (r: map<string, Rule>)
    ensures forall k :: k in r <==> k in store || Rederived(derived, k)
    ensures StoreKeyed(store) ==> StoreKeyed(r)
  {
    if |derived| == 0 then store
    else
      var n := |derived| - 1;
      var s := SavedRules(store, derived[..n]);
      RederivedLast(derived);
      s[derived[n].metadata.id := derived[n]]
  }

  /** An id is derived again by a list exactly when its front or its last rule derives it. */
  lemma RederivedLast(derived: seq<Rule>)
    requires |derived| > 0
    ensures forall k :: Rederived(derived, k) <==>
              Rederived(derived[..|derived| - 1], k) || derived[|derived| - 1].metadata.id == k
  {
    var n := |derived| - 1;
    var front := derived[..n];
    forall k ensures Rederived(derived, k) <==> Rederived(front, k) || derived[n].metadata.id == k {
      if Rederived(derived, k) {
        var i :| 0 <= i < |derived| && derived[i].metadata.id == k;
        if i < n {
          assert front[i] == derived[i];
        }
      }
      if Rederived(front, k) {
        var i :| 0 <= i < n && front[i].metadata.id == k;
        assert derived[i] == front[i];
      }
    }
  }

  /** previousRules.removeAll(rules): rules are equal when their ids are. */
  function NotRederived(previous: seq<Rule>, derived: seq<Rule>): (r: seq<Rule>)
    ensures |r| <= |previous|
    ensures forall x :: x in r <==> x in previous && !Rederived(derived, x.metadata.id)
    ensures DistinctIds(previous) ==> DistinctIds(r)
  {
    if |previous| == 0 then []
    else
      var rest := NotRederived(previous[1..], derived);
      assert forall x :: x in previous <==> x == previous[0] || x in previous[1..];
      assert DistinctIds(previous) ==>
               (DistinctIds(previous[1..]) && forall x :: x in previous[1..] ==> x.metadata.id != previous[0].metadata.id);
      if !Rederived(derived, previous[0].metadata.id) then [previous[0]] + rest else rest
  }

  /** With nothing derived, every previous rule is cleared. */
  lemma {:induction false} NotRederivedNothing(previous: seq<Rule>)
    ensures NotRederived(previous, []) == previous
  {
    if |previous| > 0 {
      NotRederivedNothing(previous[1..]);
    }
  }

  /** Some derived rule has the id. */
  predicate Rederived(derived: seq<Rule>, k: string) {
    exists i :: 0 <= i < |derived| && derived[i].metadata.id == k
  }

  /** A rule that linked the item before and is not derived again: the update clears the link. */
  predicate Unlinks(store: map<string, Rule>, derived: seq<Rule>, itemId: string, k: string) {
    k in store && itemId in store[k].linkedItems && !Rederived(derived, k)
  }

  /** updateAutoGeneratedRules on the rule store, stated key by key: the derived rules are saved;
      a rule that linked the item and is not derived again loses the item's first link, and is
      removed when it has no link left; every other rule is as it was. */
  function RuleUpdate(store: map<string, Rule>, derived: seq<Rule>, itemId: string): (r: map<string, Rule>)
    ensures StoreKeyed(store) ==> StoreKeyed(r)
  {
    var saved := SavedRules(store, derived);
    map k | k in saved && !(Unlinks(store, derived, itemId, k) && RemoveFirst(store[k].linkedItems, itemId) == []) ::
      if Unlinks(store, derived, itemId, k) then store[k].(linkedItems := RemoveFirst(store[k].linkedItems, itemId))
      else saved[k]
  }

  /** Saving derived rules leaves every id that is not derived as it was. */
  lemma {:induction false} SavedRulesOther(store: map<string, Rule>, derived: seq<Rule>, k: string)
    requires !Rederived(derived, k)
    ensures k in store ==> SavedRules(store, derived)[k] == store[k]
  {
    if |derived| > 0 {
      var n := |derived| - 1;
      assert !Rederived(derived[..n], k) by {
        assert forall i :: 0 <= i < n ==> derived[..n][i] == derived[i];
      }
      SavedRulesOther(store, derived[..n], k);
    }
  }

  /** Saving derived rules stores each under its id the last rule derived with that id. */
  lemma {:induction false} SavedRulesLast(store: map<string, Rule>, derived: seq<Rule>, i: nat)
    requires i < |derived|
    requires forall j :: i < j < |derived| ==> derived[j].metadata.id != derived[i].metadata.id
    ensures SavedRules(store, derived)[derived[i].metadata.id] == derived[i]
  {
    var n := |derived| - 1;
    var k := derived[i].metadata.id;
    var prefix := derived[..n];
    var front := SavedRules(store, prefix);
    assert SavedRules(store, derived) == front[derived[n].metadata.id := derived[n]];
    if i < n {
      assert prefix[i] == derived[i];
      forall j | i < j < n ensures prefix[j].metadata.id != prefix[i].metadata.id {
        assert prefix[j] == derived[j];
      }
      SavedRulesLast(store, prefix, i);
      assert derived[n].metadata.id != k;
    }
  }

  /** The loop of updateAutoGeneratedRules, run on the rules linked to the item (loaded from a
      keyed store), does what RuleUpdate states. */
  lemma UpdateRulesMatches(store: map<string, Rule>, previous: seq<Rule>, derived: seq<Rule>, itemId: string)
    requires StoreKeyed(store) && DistinctIds(previous)
    requires forall x :: x in previous <==> x.metadata.id in store && store[x.metadata.id] == x && itemId in x.linkedItems
    ensures ClearedRules(SavedRules(store, derived), NotRederived(previous, derived), itemId) == RuleUpdate(store, derived, itemId)
  {
    var a := ClearedRules(SavedRules(store, derived), NotRederived(previous, derived), itemId);
    var b := RuleUpdate(store, derived, itemId);
    forall k ensures (k in a <==> k in b) && (k in a ==> a[k] == b[k]) {
      UpdateRulesMatchesAt(store, previous, derived, itemId, k);
    }
    assert a == b;
  }

  /** The same, for one key. */
  lemma UpdateRulesMatchesAt(store: map<string, Rule>, previous: seq<Rule>, derived: seq<Rule>, itemId: string, k: string)
    requires StoreKeyed(store) && DistinctIds(previous)
    requires forall x :: x in previous <==> x.metadata.id in store && store[x.metadata.id] == x && itemId in x.linkedItems
    ensures var a, b := ClearedRules(SavedRules(store, derived), NotRederived(previous, derived), itemId),
                        RuleUpdate(store, derived, itemId);
            (k in a <==> k in b) && (k in a ==> a[k] == b[k])
  {
    var saved := SavedRules(store, derived);
    var rest := NotRederived(previous, derived);
    ClearedRulesAt(saved, rest, itemId, k);
    if Unlinks(store, derived, itemId, k) {
      SavedRulesOther(store, derived, k);
      assert store[k] in previous;
      assert store[k] in rest;
      var i :| 0 <= i < |rest| && rest[i] == store[k];
      assert rest[i].metadata.id == k;
    } else {
      forall i | 0 <= i < |rest| ensures rest[i].metadata.id != k {
        assert rest[i] in previous;
      }
    }
  }

  function Rules(drafts: seq<Draft>): (r: seq<Rule>)
    ensures |r| == |drafts| && forall i :: 0 <= i < |r| ==> r[i] == drafts[i].rule
  {
    seq(|drafts|, i requires 0 <= i < |drafts| => drafts[i].rule)
  }

  /** Re-deriving a rule that already links the definition appends its id a second time, so the
      next clear of that id leaves the rule linked to it. */
  lemma RelinkSurvivesClear(existing: Rule, itemId: string)
    requires itemId in existing.linkedItems
    ensures itemId in RemoveFirst(Relinked(existing, itemId).linkedItems, itemId)
  {
    var links := Relinked(existing, itemId).linkedItems;
    assert multiset(links)[itemId] == multiset(existing.linkedItems)[itemId] + 1;
    RemoveFirstCounts(links, itemId, itemId);
  }

  /** The item occurs at most n times in the links of every stored rule. */
  predicate LinkedAtMost(store: map<string, Rule>, itemId: string, n: nat) {
    forall k :: k in store ==> multiset(store[k].linkedItems)[itemId] <= n
  }

  /** A saved rule is the stored one or one of the derived rules. */
  lemma {:induction false} SavedRulesFrom(store: map<string, Rule>, derived: seq<Rule>, k: string)
    requires k in SavedRules(store, derived)
    ensures (k in store && SavedRules(store, derived)[k] == store[k]) ||
            exists i :: 0 <= i < |derived| && SavedRules(store, derived)[k] == derived[i]
  {
    if |derived| > 0 {
      var n := |derived| - 1;
      var front := SavedRules(store, derived[..n]);
      assert SavedRules(store, derived) == front[derived[n].metadata.id := derived[n]];
      if derived[n].metadata.id == k {
        assert SavedRules(store, derived)[k] == derived[n];
      } else {
        assert k in front && SavedRules(store, derived)[k] == front[k];
        SavedRulesFrom(store, derived[..n], k);
        if !(k in store && front[k] == store[k]) {
          var i :| 0 <= i < n && front[k] == derived[..n][i];
          assert derived[..n][i] == derived[i];
        }
      }
    }
  }

  /** updateAutoGeneratedRules never raises the number of times another item is linked above a
      bound that the store and the derived rules keep. */
  lemma RuleUpdateLinkedAtMost(store: map<string, Rule>, derived: seq<Rule>, itemId: string, other: string, n: nat)
    requires LinkedAtMost(store, other, n)
    requires forall i :: 0 <= i < |derived| ==> multiset(derived[i].linkedItems)[other] <= n
    ensures LinkedAtMost(RuleUpdate(store, derived, itemId), other, n)
  {
    var r := RuleUpdate(store, derived, itemId);
    forall k | k in r ensures multiset(r[k].linkedItems)[other] <= n {
      if Unlinks(store, derived, itemId, k) {
        RemoveFirstCounts(store[k].linkedItems, itemId, other);
      } else {
        SavedRulesFrom(store, derived, k);
      }
    }
  }

  /** Clearing an item linked at most once from every rule leaves no rule linked to it. */
  lemma ClearUnlinks(store: map<string, Rule>, itemId: string)
    requires LinkedAtMost(store, itemId, 1)
    ensures LinkedAtMost(RuleUpdate(store, [], itemId), itemId, 0)
  {
    var r := RuleUpdate(store, [], itemId);
    assert SavedRules(store, []) == store;
    forall k | k in r ensures multiset(r[k].linkedItems)[itemId] <= 0 {
      if Unlinks(store, [], itemId, k) {
        RemoveFirstCounts(store[k].linkedItems, itemId, itemId);
      } else {
        assert itemId !in store[k].linkedItems;
      }
    }
  }

  /** The rules a walk for one definition derives link any other item no more often than the
      store's rules do. */
  lemma DraftsLinkedAtMost(ctx: WalkContext, drafts: seq<Draft>, other: string, n: nat)
    requires DraftsOk(ctx, drafts) && ctx.metadata.id != other
    requires LinkedAtMost(ctx.ruleStore, other, n)
    ensures forall i :: 0 <= i < |drafts| ==> multiset(Rules(drafts)[i].linkedItems)[other] <= n
  {
    forall i | 0 <= i < |drafts| ensures multiset(Rules(drafts)[i].linkedItems)[other] <= n {
      var rule := drafts[i].rule;
      if rule.metadata.id in ctx.ruleStore {
        var existing := ctx.ruleStore[rule.metadata.id];
        assert rule.linkedItems == existing.linkedItems + [ctx.metadata.id];
        assert multiset(rule.linkedItems) == multiset(existing.linkedItems) + multiset{ctx.metadata.id};
      } else {
        assert multiset(rule.linkedItems) == multiset{ctx.metadata.id};
      }
    }
  }
}
