/**
 * The client-side query functions: the options the convention form needs (members,
 * distinct topic types with their labels, topic and action projections), the latest
 * logs and the summaries, each turning a thrown failure into a `FETCH_ERROR`.
 */
module ConventionStore {
  import opened Wrappers
  import opened Seqs
  import opened Sorting
  import opened DatabaseTypes
  import opened Backend
  import opened ConventionApi

  datatype SelectOption = SelectOption(value: string, labelText: string)

  /** The display label of a topic type; other types show their raw value. */
  const TYPE_LABELS: map<string, string> := map["convention" := "Convention", "delivery" := "Delivery"]

  function TypeLabel(typeValue: string): (r: string)
    ensures typeValue == "convention" ==> r == "Convention"
    ensures typeValue == "delivery" ==> r == "Delivery"
    ensures typeValue != "convention" && typeValue != "delivery" ==> r == typeValue
  {
    if typeValue in TYPE_LABELS then TYPE_LABELS[typeValue] else typeValue
  }

  function TopicType(t: TopicConventionOptionWithType): string { t.typeValue }

  function ToTypeSelectOption(typeValue: string): SelectOption {
    SelectOption(typeValue, TypeLabel(typeValue))
  }

  function OptionValue(o: SelectOption): string { o.value }

  /** `typeOptions`: one option per distinct topic type, labelled from `TYPE_LABELS`. */
  function TypeOptions(topics: seq<TopicConventionOptionWithType>): (r: seq<SelectOption>)
    ensures forall i, j :: 0 <= i < j < |r| ==> r[i].value != r[j].value
    ensures forall k :: 0 <= k < |topics| ==> topics[k].typeValue in Map(r, OptionValue)
    ensures forall i :: 0 <= i < |r| ==> r[i].value in Map(topics, TopicType)
    ensures forall i :: 0 <= i < |r| ==> r[i].labelText == TypeLabel(r[i].value)
  {
    var types := Map(topics, TopicType);
    var distinct := Distinct(types);
    var r := Map(distinct, ToTypeSelectOption);
    assert Map(r, OptionValue) == distinct;
    assert forall k :: 0 <= k < |topics| ==> types[k] in types;
    assert forall i :: 0 <= i < |r| ==> distinct[i] in distinct;
    r
  }

  /** Type options follow the order in which each type first appears among the topics. */
  lemma TypeOptionsFirstAppearance(topics: seq<TopicConventionOptionWithType>, i: nat, j: nat, k: nat)
    requires i < j < |TypeOptions(topics)| && k < |topics|
    requires topics[k].typeValue == TypeOptions(topics)[j].value
    ensures TypeOptions(topics)[i].value in Map(topics, TopicType)[..k]
  {
    var types := Map(topics, TopicType);
    var distinct := Distinct(types);
    var r := TypeOptions(topics);
    assert r[i].value == distinct[i] && r[j].value == distinct[j];
    DistinctFirstAppearance(types, i, j, k);
  }

  datatype TopicItem = TopicItem(id: string, title: string, typeValue: string)
  datatype ActionItem = ActionItem(id: string, topicId: string, labelText: string)

  datatype ConventionFormOptionsResult = ConventionFormOptionsResult(
    memberOptions: seq<SelectOption>,
    typeOptions: seq<SelectOption>,
    topics: seq<TopicItem>,
    actionRules: seq<ActionItem>)

  function ToMemberOption(m: FrontendMember): SelectOption { SelectOption(m.id, m.name) }
  function ToTopicItem(t: TopicConventionOptionWithType): TopicItem { TopicItem(t.id, t.title, t.typeValue) }
  function ToActionItem(a: ActionRule): ActionItem { ActionItem(a.id, a.topicId, a.labelText) }

  /** The body of the form-options query once the three reads have succeeded. */
  function BuildFormOptions(members: seq<FrontendMember>, topics: seq<TopicConventionOptionWithType>,
                            actions: seq<ActionRule>): (r: ConventionFormOptionsResult)
    ensures |r.memberOptions| == |members|
    ensures forall i :: 0 <= i < |members| ==>
              r.memberOptions[i].value == members[i].id && r.memberOptions[i].labelText == members[i].name
    ensures r.typeOptions == TypeOptions(topics)
    ensures |r.topics| == |topics|
    ensures forall i :: 0 <= i < |topics| ==>
              r.topics[i] == TopicItem(topics[i].id, topics[i].title, topics[i].typeValue)
    ensures |r.actionRules| == |actions|
    ensures forall i :: 0 <= i < |actions| ==>
              r.actionRules[i] == ActionItem(actions[i].id, actions[i].topicId, actions[i].labelText)
  {
    ConventionFormOptionsResult(Map(members, ToMemberOption), TypeOptions(topics),
                                Map(topics, ToTopicItem), Map(actions, ToActionItem))
  }

  // ---------------------------------------------------------------- failures

  /** The error a query function reports: its status is always `FETCH_ERROR`. */
  datatype FetchError = FetchError(status: string, error: string)

  datatype QueryResult<T> = Data(data: T) | Error(error: FetchError)

  /** `err instanceof Error ? err.message : fallback` */
  function ErrorMessageOf(e: Thrown, fallback: string): (r: string)
    ensures e.ErrorInstance? ==> r == e.message
    ensures e.NonErrorValue? ==> r == fallback
  {
    match e
    case ErrorInstance(m) => m
    case NonErrorValue => fallback
  }

  function ToQueryResult<T>(res: Result<T>, fallback: string): (r: QueryResult<T>)
    ensures res.Ok? <==> r.Data?
    ensures res.Ok? ==> r.data == res.value
    ensures res.Err? ==> r.error == FetchError("FETCH_ERROR", ErrorMessageOf(res.thrown, fallback))
  {
    match res
    case Ok(v) => Data(v)
    case Err(e) => Error(FetchError("FETCH_ERROR", ErrorMessageOf(e, fallback)))
  }

  const OPTIONS_FALLBACK := "Failed to load options"
  const LOGS_FALLBACK := "Failed to load logs"
  const SUMMARY_FALLBACK := "Failed to load summary"

  /**
   * `getConventionFormOptions`. The three reads run together; when several fail, the
   * one reported here is the first in argument order.
   */
  function GetConventionFormOptions(t: Tables, membersFault: Option<Thrown>, topicsFault: Option<Thrown>,
                                    actionsFault: Option<Thrown>): (r: QueryResult<ConventionFormOptionsResult>)
    ensures r.Error? <==> membersFault.Some? || topicsFault.Some? || actionsFault.Some?
    ensures r.Error? ==> r.error.status == "FETCH_ERROR"
    ensures membersFault.Some? ==> r.error.error == ErrorMessageOf(membersFault.value, OPTIONS_FALLBACK)
    ensures membersFault.None? && topicsFault.Some? ==>
              r.error.error == ErrorMessageOf(topicsFault.value, OPTIONS_FALLBACK)
    ensures membersFault.None? && topicsFault.None? && actionsFault.Some? ==>
              r.error.error == ErrorMessageOf(actionsFault.value, OPTIONS_FALLBACK)
    ensures r.Data? ==> r.data == BuildFormOptions(ActiveMembers(t.frontendMember),
                                                   Map(TopicsInOrder(t.topicConventionOption), WithType(t.conventionType)),
                                                   SortBy(t.actionRules, ActionOrder()))
    ensures r.Data? ==> |r.data.memberOptions| == |ActiveMembers(t.frontendMember)|
    ensures r.Data? ==> |r.data.topics| == |t.topicConventionOption|
    ensures r.Data? ==> |r.data.actionRules| == |t.actionRules|
  {
    var members := GetFrontendMembers(t, membersFault);
    var topics := GetTopicConventionOptions(t, topicsFault);
    var actions := GetActionRules(t, actionsFault);
    if members.Err? then ToQueryResult<ConventionFormOptionsResult>(Err(members.thrown), OPTIONS_FALLBACK)
    else if topics.Err? then ToQueryResult<ConventionFormOptionsResult>(Err(topics.thrown), OPTIONS_FALLBACK)
    else if actions.Err? then ToQueryResult<ConventionFormOptionsResult>(Err(actions.thrown), OPTIONS_FALLBACK)
    else Data(BuildFormOptions(members.value, topics.value, actions.value))
  }

  /** `getLatestConventionLogs` as a query: the rows, or the failure as a `FETCH_ERROR`. */
  function LatestLogsQuery(t: Tables, fault: Option<Thrown>): (r: QueryResult<seq<ConventionLogWithDetails>>)
    ensures r.Error? <==> fault.Some?
    ensures fault.Some? ==> r.error == FetchError("FETCH_ERROR", ErrorMessageOf(fault.value, LOGS_FALLBACK))
    ensures r.Data? ==> r.data == WithDetails(t, LatestLogs(t.conventionLogs))
    ensures r.Data? ==> |r.data| <= LATEST_LOGS_LIMIT
  {
    ToQueryResult(GetLatestConventionLogs(t, fault), LOGS_FALLBACK)
  }

  /** `getMemberConventionSummaries` as a query. */
  function SummariesQuery(t: Tables, membersFault: Option<Thrown>, summaryFault: Option<Thrown>)
    : (r: QueryResult<seq<MemberConventionSummaryItem>>)
    ensures r.Error? <==> membersFault.Some? || summaryFault.Some?
    ensures r.Error? ==> r.error.status == "FETCH_ERROR"
    ensures membersFault.Some? ==> r.error.error == ErrorMessageOf(membersFault.value, SUMMARY_FALLBACK)
    ensures membersFault.None? && summaryFault.Some? ==>
              r.error.error == ErrorMessageOf(summaryFault.value, SUMMARY_FALLBACK)
    ensures r.Data? ==> r.data == MergeSummaries(Map(ActiveMembers(t.frontendMember), ToIdName), t.memberConventionSummary)
    ensures r.Data? ==> |r.data| == |ActiveMembers(t.frontendMember)|
  {
    ToQueryResult(GetMemberConventionSummaries(t, membersFault, summaryFault), SUMMARY_FALLBACK)
  }
}
