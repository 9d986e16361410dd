/**
 * What the convention form reads from the cached form options: topics of one type,
 * actions of one topic, the member and type lists, and the error text to show.
 */
module FormOptionsHook {
  import opened Wrappers
  import opened Seqs
  import opened Backend
  import opened ConventionStore

  function TopicOption(t: TopicItem): SelectOption { SelectOption(t.id, t.title) }
  function ActionOption(a: ActionItem): SelectOption { SelectOption(a.id, a.labelText) }

  function OfType(typeValue: string): TopicItem -> bool {
    (t: TopicItem) => t.typeValue == typeValue
  }

  function OfTopic(topicId: string): ActionItem -> bool {
    (a: ActionItem) => a.topicId == topicId
  }

  /** `getTopicOptions(type)`: nothing before the data arrives or while no type is chosen. */
  function GetTopicOptions(data: Option<ConventionFormOptionsResult>, typeValue: string): (r: seq<SelectOption>)
    ensures data.None? || typeValue == "" ==> r == []
  {
    if data.None? || typeValue == "" then []
    else Map(Filter(data.value.topics, OfType(typeValue)), TopicOption)
  }

  /** `getActionOptions(topicId)`: nothing before the data arrives or while no topic is chosen. */
  function GetActionOptions(data: Option<ConventionFormOptionsResult>, topicId: string): (r: seq<SelectOption>)
    ensures data.None? || topicId == "" ==> r == []
  {
    if data.None? || topicId == "" then []
    else Map(Filter(data.value.actionRules, OfTopic(topicId)), ActionOption)
  }

  /**
   * With data and a type chosen, the topic options are the topics of that type, as
   * `{value: id, label: title}`: every copy of each such topic and nothing else, in the
   * topics' own order.
   */
  lemma TopicOptionsSpec(data: ConventionFormOptionsResult, typeValue: string)
    requires typeValue != ""
    ensures var kept := Filter(data.topics, OfType(typeValue));
            && GetTopicOptions(Some(data), typeValue) == Map(kept, TopicOption)
            && IsSubseq(kept, data.topics)
            && (forall t :: multiset(kept)[t] == if t.typeValue == typeValue then multiset(data.topics)[t] else 0)
    ensures var r := GetTopicOptions(Some(data), typeValue);
            && IsSubseq(r, Map(data.topics, TopicOption))
            && (forall o :: o in r <==> exists t :: t in data.topics && t.typeValue == typeValue && o == TopicOption(t))
  {
    forall t
      ensures multiset(Filter(data.topics, OfType(typeValue)))[t] ==
              if t.typeValue == typeValue then multiset(data.topics)[t] else 0
    {
      FilterCount(data.topics, OfType(typeValue), t);
      assert OfType(typeValue)(t) == (t.typeValue == typeValue);
    }
    FilterIsSubseq(data.topics, OfType(typeValue));
    MapKeepsSubseq(Filter(data.topics, OfType(typeValue)), data.topics, TopicOption);
    forall o
      ensures o in GetTopicOptions(Some(data), typeValue) <==> exists t :: t in data.topics && t.typeValue == typeValue && o == TopicOption(t)
    {
      FilterMapMembers(data.topics, OfType(typeValue), TopicOption, o);
    }
  }

  /**
   * With data and a topic chosen, the action options are the action rules of that topic, as
   * `{value: id, label: label}`: every copy of each such rule and nothing else, in the rules'
   * own order.
   */
  lemma ActionOptionsSpec(data: ConventionFormOptionsResult, topicId: string)
    requires topicId != ""
    ensures var kept := Filter(data.actionRules, OfTopic(topicId));
            && GetActionOptions(Some(data), topicId) == Map(kept, ActionOption)
            && IsSubseq(kept, data.actionRules)
            && (forall a :: multiset(kept)[a] == if a.topicId == topicId then multiset(data.actionRules)[a] else 0)
    ensures var r := GetActionOptions(Some(data), topicId);
            && IsSubseq(r, Map(data.actionRules, ActionOption))
            && (forall o :: o in r <==> exists a :: a in data.actionRules && a.topicId == topicId && o == ActionOption(a))
  {
    forall a
      ensures multiset(Filter(data.actionRules, OfTopic(topicId)))[a] ==
              if a.topicId == topicId then multiset(data.actionRules)[a] else 0
    {
      FilterCount(data.actionRules, OfTopic(topicId), a);
      assert OfTopic(topicId)(a) == (a.topicId == topicId);
    }
    FilterIsSubseq(data.actionRules, OfTopic(topicId));
    MapKeepsSubseq(Filter(data.actionRules, OfTopic(topicId)), data.actionRules, ActionOption);
    forall o
      ensures o in GetActionOptions(Some(data), topicId) <==> exists a :: a in data.actionRules && a.topicId == topicId && o == ActionOption(a)
    {
      FilterMapMembers(data.actionRules, OfTopic(topicId), ActionOption, o);
    }
  }

  /** `memberOptions`: empty until the data arrives. */
  function MemberOptions(data: Option<ConventionFormOptionsResult>): (r: seq<SelectOption>)
    ensures data.None? ==> r == []
    ensures data.Some? ==> r == data.value.memberOptions
  {
    if data.Some? then data.value.memberOptions else []
  }

  /** `typeOptions`: empty until the data arrives. */
  function TypeOptionsOf(data: Option<ConventionFormOptionsResult>): (r: seq<SelectOption>)
    ensures data.None? ==> r == []
    ensures data.Some? ==> r == data.value.typeOptions
  {
    if data.Some? then data.value.typeOptions else []
  }

  // ---------------------------------------------------------------- error text

  /** A property of the error object: missing, a string, or some other value and its `String(…)`. */
  datatype Prop = Absent | StringProp(s: string) | OtherProp(rendered: string)

  /** The query's `error`: none, a string, or an object with possibly an `error` and a `message`. */
  datatype QueryError =
    | NoError
    | StringError(s: string)
    | ObjectError(errorProp: Prop, messageProp: Prop)

  /** `error` is truthy: present, and not the empty string. */
  predicate Truthy(e: QueryError) {
    !e.NoError? && e != StringError("")
  }

  const OPTIONS_ERROR_FALLBACK := "Failed to load options"

  /** The hook's `error` value: `None` for null. */
  function ErrorMessage(isError: bool, error: QueryError): (r: Option<string>)
    ensures r.Some? <==> isError && Truthy(error)
    ensures r.Some? && error.StringError? ==> r.value == error.s
    ensures r.Some? && error.ObjectError? && error.errorProp.StringProp? ==> r.value == error.errorProp.s
    ensures r.Some? && error.ObjectError? && !error.errorProp.StringProp? && error.messageProp.StringProp? ==>
              r.value == error.messageProp.s
    ensures r.Some? && error.ObjectError? && !error.errorProp.StringProp? && error.messageProp.OtherProp? ==>
              r.value == error.messageProp.rendered
    ensures r.Some? && error.ObjectError? && !error.errorProp.StringProp? && error.messageProp.Absent? ==>
              r.value == OPTIONS_ERROR_FALLBACK
  {
    if !(isError && Truthy(error)) then None
    else match error
      case StringError(s) => Some(s)
      case ObjectError(errorProp, messageProp) =>
        if errorProp.StringProp? then Some(errorProp.s)
        else if messageProp.StringProp? then Some(messageProp.s)
        else if messageProp.OtherProp? then Some(messageProp.rendered)
        else Some(OPTIONS_ERROR_FALLBACK)
  }

  /** How the query's `{status, error}` object reaches the hook. */
  function FromFetchError(e: FetchError): QueryError {
    ObjectError(StringProp(e.error), Absent)
  }

  /**
   * A failed form-options query shows exactly the message its query function put in the
   * `FETCH_ERROR`: the thrown error's message, or the fixed fallback text.
   */
  lemma FetchErrorShown(t: Tables, membersFault: Option<Thrown>, topicsFault: Option<Thrown>,
                        actionsFault: Option<Thrown>)
    requires membersFault.Some? || topicsFault.Some? || actionsFault.Some?
    ensures var q := GetConventionFormOptions(t, membersFault, topicsFault, actionsFault);
            && q.Error?
            && ErrorMessage(true, FromFetchError(q.error)) == Some(q.error.error)
            && (membersFault.Some? && membersFault.value.NonErrorValue? ==>
                  ErrorMessage(true, FromFetchError(q.error)) == Some(OPTIONS_ERROR_FALLBACK))
  {
  }
}
