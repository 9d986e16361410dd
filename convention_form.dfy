/**
 * The convention-point entry form: its default values, the topic and action choices that
 * depend on the chosen type and topic, the resets that keep those choices consistent,
 * the required-field check and the save/cancel reset.
 */
module ConventionForm {
  import opened Wrappers
  import opened Seqs
  import opened DatabaseTypes

  /** The form's values; `date` is `None` while the date picker is cleared. */
  datatype FormValues = FormValues(
    date: Option<Day>, member: string, typeValue: string, topicRule: string,
    sprint: string, action: string, notes: string)

  /** `getDefaultValues()`: today's date and every text field empty. */
  function GetDefaultValues(today: Day): (r: FormValues)
    ensures r.date == Some(today)
    ensures r.member == "" && r.typeValue == "" && r.topicRule == ""
    ensures r.sprint == "" && r.action == "" && r.notes == ""
  {
    FormValues(Some(today), "", "", "", "", "", "")
  }

  /** A choice offered by a select: `{value, label}`. */
  datatype Choice = Choice(value: string, labelText: string)

  /** An entry of the topic catalogue, tagged with the type it belongs to. */
  datatype TypeRuleEntry = TypeRuleEntry(value: string, labelText: string, typeValue: string)

  /** An entry of the action catalogue, tagged with the action type it belongs to. */
  datatype ActionRuleEntry = ActionRuleEntry(value: string, labelText: string, typeValue: string)

  function TypeRuleChoice(t: TypeRuleEntry): Choice { Choice(t.value, t.labelText) }
  function ActionRuleChoice(a: ActionRuleEntry): Choice { Choice(a.value, a.labelText) }

  function RuleOfType(typeValue: string): TypeRuleEntry -> bool {
    (t: TypeRuleEntry) => t.typeValue == typeValue
  }

  function ActionOfType(actionType: string): ActionRuleEntry -> bool {
    (a: ActionRuleEntry) => a.typeValue == actionType
  }

  /** `getTopicOptionsByType`: no choices while no type is selected. */
  function GetTopicOptionsByType(rules: seq<TypeRuleEntry>, typeValue: string): (r: seq<Choice>)
    ensures typeValue == "" ==> r == []
    ensures |r| <= |rules|
  {
    if typeValue == "" then [] else Map(Filter(rules, RuleOfType(typeValue)), TypeRuleChoice)
  }

  /**
   * With a type selected, the choices are the catalogue entries of that type: every copy of
   * each such entry and nothing else, in the catalogue's order.
   */
  lemma TopicOptionsByTypeSpec(rules: seq<TypeRuleEntry>, typeValue: string)
    requires typeValue != ""
    ensures var kept := Filter(rules, RuleOfType(typeValue));
            && GetTopicOptionsByType(rules, typeValue) == Map(kept, TypeRuleChoice)
            && IsSubseq(kept, rules)
            && (forall t :: multiset(kept)[t] == if t.typeValue == typeValue then multiset(rules)[t] else 0)
    ensures var r := GetTopicOptionsByType(rules, typeValue);
            && IsSubseq(r, Map(rules, TypeRuleChoice))
            && (forall c :: c in r <==> exists t :: t in rules && t.typeValue == typeValue && c == TypeRuleChoice(t))
  {
    forall t
      ensures multiset(Filter(rules, RuleOfType(typeValue)))[t] ==
              if t.typeValue == typeValue then multiset(rules)[t] else 0
    {
      FilterCount(rules, RuleOfType(typeValue), t);
      assert RuleOfType(typeValue)(t) == (t.typeValue == typeValue);
    }
    FilterIsSubseq(rules, RuleOfType(typeValue));
    MapKeepsSubseq(Filter(rules, RuleOfType(typeValue)), rules, TypeRuleChoice);
    forall c
      ensures c in GetTopicOptionsByType(rules, typeValue) <==>
              exists t :: t in rules && t.typeValue == typeValue && c == TypeRuleChoice(t)
    {
      FilterMapMembers(rules, RuleOfType(typeValue), TypeRuleChoice, c);
    }
  }

  /** Which action catalogue belongs to a topic. */
  const TOPIC_TO_ACTION_TYPE: map<string, string> := map[
    "Commit Message" := "commit_message",
    "Branch Naming" := "branch_naming",
    "Dev Testing" := "dev_testing",
    "Delivery" := "delivery"]

  /** `getActionOptionsByTopic`: no choices without a topic, or for a topic with no action type. */
  function GetActionOptionsByTopic(actions: seq<ActionRuleEntry>, topicRule: string): (r: seq<Choice>)
    ensures topicRule == "" ==> r == []
    ensures topicRule !in TOPIC_TO_ACTION_TYPE ==> r == []
    ensures |r| <= |actions|
  {
    if topicRule == "" then []
    else if topicRule !in TOPIC_TO_ACTION_TYPE || TOPIC_TO_ACTION_TYPE[topicRule] == "" then []
    else Map(Filter(actions, ActionOfType(TOPIC_TO_ACTION_TYPE[topicRule])), ActionRuleChoice)
  }

  /**
   * For a mapped topic, the choices are the actions of the topic's action type: every copy of
   * each such action and nothing else, in the catalogue's order.
   */
  lemma ActionOptionsByTopicSpec(actions: seq<ActionRuleEntry>, topicRule: string)
    requires topicRule in TOPIC_TO_ACTION_TYPE
    ensures var actionType := TOPIC_TO_ACTION_TYPE[topicRule];
            var kept := Filter(actions, ActionOfType(actionType));
            && GetActionOptionsByTopic(actions, topicRule) == Map(kept, ActionRuleChoice)
            && IsSubseq(kept, actions)
            && (forall a :: multiset(kept)[a] == if a.typeValue == actionType then multiset(actions)[a] else 0)
    ensures var r := GetActionOptionsByTopic(actions, topicRule);
            var actionType := TOPIC_TO_ACTION_TYPE[topicRule];
            && IsSubseq(r, Map(actions, ActionRuleChoice))
            && (forall c :: c in r <==> exists a :: a in actions && a.typeValue == actionType && c == ActionRuleChoice(a))
  {
    var actionType := TOPIC_TO_ACTION_TYPE[topicRule];
    assert topicRule != "" && actionType != "";
    forall a
      ensures multiset(Filter(actions, ActionOfType(actionType)))[a] ==
              if a.typeValue == actionType then multiset(actions)[a] else 0
    {
      FilterCount(actions, ActionOfType(actionType), a);
      assert ActionOfType(actionType)(a) == (a.typeValue == actionType);
    }
    FilterIsSubseq(actions, ActionOfType(actionType));
    MapKeepsSubseq(Filter(actions, ActionOfType(actionType)), actions, ActionRuleChoice);
    forall c
      ensures c in GetActionOptionsByTopic(actions, topicRule) <==>
              exists a :: a in actions && a.typeValue == actionType && c == ActionRuleChoice(a)
    {
      FilterMapMembers(actions, ActionOfType(actionType), ActionRuleChoice, c);
    }
  }

  // ---------------------------------------------------------------- transitions

  /** Picking a type (or clearing it, `None`) empties the topic and the action. */
  function OnTypeChange(v: FormValues, picked: Option<string>): (r: FormValues)
    ensures r.typeValue == picked.GetOr("") && r.topicRule == "" && r.action == ""
    ensures r.date == v.date && r.member == v.member && r.sprint == v.sprint && r.notes == v.notes
  {
    v.(typeValue := picked.GetOr(""), topicRule := "", action := "")
  }

  /** Picking a topic (or clearing it) empties the action and keeps the type. */
  function OnTopicChange(v: FormValues, picked: Option<string>): (r: FormValues)
    ensures r.topicRule == picked.GetOr("") && r.action == ""
    ensures r.date == v.date && r.member == v.member && r.typeValue == v.typeValue
    ensures r.sprint == v.sprint && r.notes == v.notes
  {
    v.(topicRule := picked.GetOr(""), action := "")
  }

  /** A rule the form checks before saving. */
  datatype RequiredField = MemberField | TypeField | TopicRuleField | ActionField

  /** The message a rule shows under its field when that field is empty. */
  function RequiredMessage(f: RequiredField): string {
    match f
    case MemberField => "Please select a member"
    case TypeField => "Please select a type"
    case TopicRuleField => "Please select a topic"
    case ActionField => "Please select an action"
  }

  /** The required fields that are still empty, in the form's order. */
  function MissingFields(v: FormValues): (r: seq<RequiredField>)
    ensures MemberField in r <==> v.member == ""
    ensures TypeField in r <==> v.typeValue == ""
    ensures TopicRuleField in r <==> v.topicRule == ""
    ensures ActionField in r <==> v.action == ""
  {
    (if v.member == "" then [MemberField] else [])
    + (if v.typeValue == "" then [TypeField] else [])
    + (if v.topicRule == "" then [TopicRuleField] else [])
    + (if v.action == "" then [ActionField] else [])
  }

  /** Saving is possible exactly when member, type, topic and action are all chosen. */
  lemma SubmittableSpec(v: FormValues, sprint: string, notes: string, date: Option<Day>)
    ensures MissingFields(v) == [] <==> v.member != "" && v.typeValue != "" && v.topicRule != "" && v.action != ""
    ensures MissingFields(v.(sprint := sprint, notes := notes, date := date)) == MissingFields(v)
  {
    if MissingFields(v) == [] {
      assert MemberField !in MissingFields(v);
    }
  }

  /** After a type change the form cannot be saved until a topic and an action are chosen again. */
  lemma TypeChangeBlocksSubmit(v: FormValues, picked: Option<string>)
    ensures var w := OnTypeChange(v, picked);
            && TopicRuleField in MissingFields(w) && ActionField in MissingFields(w)
            && MissingFields(OnTopicChange(w, Some("x"))) != []
  {
  }

  /** What `onSave` hands on: the values, with a cleared date replaced by today. */
  function Payload(v: FormValues, today: Day): (r: FormValues)
    ensures r.date == Some(v.date.GetOr(today))
    ensures r == v.(date := r.date)
  {
    v.(date := Some(v.date.GetOr(today)))
  }

  /** The form's state, as the form library holds it; `today` stands for `dayjs()`. */
  class FormState {
    var values: FormValues

    constructor (today: Day)
      ensures values == GetDefaultValues(today)
    {
      values := GetDefaultValues(today);
    }

    method ChangeType(picked: Option<string>)
      modifies this
      ensures values == OnTypeChange(old(values), picked)
    {
      values := values.(typeValue := picked.GetOr(""));
      values := values.(topicRule := "");
      values := values.(action := "");
    }

    method ChangeTopic(picked: Option<string>)
      modifies this
      ensures values == OnTopicChange(old(values), picked)
    {
      values := values.(topicRule := picked.GetOr(""));
      values := values.(action := "");
    }

    method ChangeMember(picked: Option<string>)
      modifies this
      ensures values == old(values).(member := picked.GetOr(""))
    {
      values := values.(member := picked.GetOr(""));
    }

    method ChangeAction(picked: Option<string>)
      modifies this
      ensures values == old(values).(action := picked.GetOr(""))
    {
      values := values.(action := picked.GetOr(""));
    }

    method ChangeDate(picked: Option<Day>)
      modifies this
      ensures values == old(values).(date := picked)
    {
      values := values.(date := picked);
    }

    method ChangeSprint(text: string)
      modifies this
      ensures values == old(values).(sprint := text)
    {
      values := values.(sprint := text);
    }

    method ChangeNotes(text: string)
      modifies this
      ensures values == old(values).(notes := text)
    {
      values := values.(notes := text);
    }

    /**
     * Submitting: with a required field empty nothing changes and each missing field is
     * reported with its rule's message; otherwise the payload is handed on and the form goes
     * back to its defaults.
     */
    method Submit(today: Day) returns (payload: Option<FormValues>, missing: seq<RequiredField>, help: seq<string>)
      modifies this
      ensures missing == MissingFields(old(values))
      ensures |help| == |missing| && forall i :: 0 <= i < |missing| ==> help[i] == RequiredMessage(missing[i])
      ensures missing != [] ==> payload.None? && values == old(values)
      ensures missing == [] ==> payload == Some(Payload(old(values), today)) && values == GetDefaultValues(today)
    {
      missing := MissingFields(values);
      help := Map(missing, RequiredMessage);
      if missing != [] {
        return None, missing, help;
      }
      payload := Some(Payload(values, today));
      values := GetDefaultValues(today);
    }

    method Cancel(today: Day)
      modifies this
      ensures values == GetDefaultValues(today)
    {
      values := GetDefaultValues(today);
    }
  }
}
