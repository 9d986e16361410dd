/**
 * Row shapes of the dashboard's tables (frontend_member, convention_type,
 * topic_convention_option, convention_rules, action_rules, convention_logs,
 * member_convention_summary, activity_log).
 */
module DatabaseTypes {
  import opened Wrappers

  /** A `timestamptz`, as microseconds since 1970-01-01T00:00:00.000000Z (its stored precision). */
  type Instant = nat

  /** A `date`, as the number of days since 1970-01-01. */
  type Day = nat

  const US_PER_MS: nat := 1_000
  const US_PER_DAY: nat := 86_400_000_000

  /** The instant written `<day>T00:00:00.000Z`. */
  function DayStart(d: Day): Instant {
    d * US_PER_DAY
  }

  /** The instant written `<day>T23:59:59.999Z`: the start of the last millisecond of the UTC day. */
  function DayEnd(d: Day): Instant {
    d * US_PER_DAY + US_PER_DAY - US_PER_MS
  }

  /** A JSON value; numbers are restricted to integers. */
  datatype Json =
    | JNull
    | JBool(b: bool)
    | JNumber(n: int)
    | JString(s: string)
    | JArray(items: seq<Json>)
    | JObject(fields: seq<(string, Json)>)

  datatype FrontendMember = FrontendMember(
    id: string, name: string, email: Option<string>, isActive: bool,
    createdAt: Instant, updatedAt: Instant)

  datatype ConventionType = ConventionType(
    id: string, value: string, labelText: string, sortOrder: int,
    createdAt: Instant, updatedAt: Instant)

  datatype TopicConventionOption = TopicConventionOption(
    id: string, title: string, typeId: string, sortOrder: int,
    createdAt: Instant, updatedAt: Instant)

  datatype ConventionRule = ConventionRule(
    id: string, topicId: string, ruleText: string, sortOrder: int,
    createdAt: Instant, updatedAt: Instant)

  datatype ActionRule = ActionRule(
    id: string, topicId: string, labelText: string, value: string, sortOrder: int,
    createdAt: Instant, updatedAt: Instant)

  /** `typeValue` is the `type` column: the `value` slug of a convention type. */
  datatype ConventionLog = ConventionLog(
    id: string, logDate: Day, memberId: string, typeValue: string, topicId: string,
    actionRuleId: string, sprint: Option<string>, notes: Option<string>,
    createdBy: Option<string>, createdAt: Instant)

  datatype MemberConventionSummary = MemberConventionSummary(
    memberId: string, violationCount: int, updatedAt: Instant)

  /** `metadata` holds `JNull` for SQL null. */
  datatype ActivityLog = ActivityLog(
    id: string, actorName: string, actionType: string, description: string,
    metadata: Json, createdAt: Instant)
}
