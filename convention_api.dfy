/**
 * The data-access layer of the convention dashboard (lib/convention-api.ts): every
 * exported query as a function of the backend's tables, every insert/update/delete as
 * a method on the `Database`, plus the pure shaping the client does on the rows it
 * gets back (summary merge, topic flattening, join normalisation, partial updates).
 */
module ConventionApi {
  import opened Wrappers
  import opened Seqs
  import opened Sorting
  import opened DatabaseTypes
  import opened Backend

  /** The answer of a query: the backend's error when it raised one, the rows otherwise. */
  function Respond<T>(fault: Option<Thrown>, data: T): (r: Result<T>)
    ensures r.Err? <==> fault.Some?
    ensures r.Err? ==> r.thrown == fault.value
    ensures r.Ok? ==> r.value == data
  {
    if fault.Some? then Err(fault.value) else Ok(data)
  }

  // ---------------------------------------------------------------------------
  // Members and the per-member summary
  // ---------------------------------------------------------------------------

  function IsActive(m: FrontendMember): bool { m.isActive }
  function MemberName(m: FrontendMember): string { m.name }

  /** `.eq("is_active", true).order("name")` */
  function ActiveMembers(rows: seq<FrontendMember>): seq<FrontendMember> {
    SortBy(Filter(rows, IsActive), ByText(MemberName))
  }

  /** Every active member exactly once, nothing else, in name order. */
  lemma ActiveMembersSpec(rows: seq<FrontendMember>)
    ensures Sorted(ActiveMembers(rows), ByText(MemberName))
    ensures multiset(ActiveMembers(rows)) == multiset(Filter(rows, IsActive))
    ensures forall m :: m in ActiveMembers(rows) <==> m in rows && m.isActive
  {
    ByTextTotal(MemberName);
    SortBySorted(Filter(rows, IsActive), ByText(MemberName));
    forall m
      ensures m in ActiveMembers(rows) <==> m in rows && m.isActive
    {
      if m in rows && m.isActive {
        var i :| 0 <= i < |rows| && rows[i] == m;
        SortedContains(Filter(rows, IsActive), ByText(MemberName), m);
      }
      if m in ActiveMembers(rows) {
        SortedMembers(Filter(rows, IsActive), ByText(MemberName), m);
      }
    }
  }

  function GetFrontendMembers(t: Tables, fault: Option<Thrown>): (r: Result<seq<FrontendMember>>)
    ensures r.Err? <==> fault.Some?
    ensures r.Ok? ==> r.value == ActiveMembers(t.frontendMember)
    ensures r.Ok? ==> forall m :: m in r.value ==> m in t.frontendMember && m.isActive
  {
    ActiveMembersSpec(t.frontendMember);
    Respond(fault, ActiveMembers(t.frontendMember))
  }

  /** A member row as selected by `select("id, name")`. */
  datatype MemberIdName = MemberIdName(id: string, name: string)

  datatype MemberConventionSummaryItem = MemberConventionSummaryItem(
    memberId: string, name: string, violationCount: int)

  function ToIdName(m: FrontendMember): MemberIdName { MemberIdName(m.id, m.name) }

  /** `new Map(rows.map(s => [s.member_id, s.violation_count]))`: a later row overwrites an earlier one. */
  function CountByMember(rows: seq<MemberConventionSummary>): map<string, int>
    decreases |rows|
  {
    if rows == [] then map[]
    else
      var last := rows[|rows| - 1];
      CountByMember(rows[..|rows| - 1])[last.memberId := last.violationCount]
  }

  lemma {:induction false} CountByMemberKeys(rows: seq<MemberConventionSummary>, id: string)
    ensures id in CountByMember(rows) <==> exists i :: 0 <= i < |rows| && rows[i].memberId == id
    decreases |rows|
  {
    if rows != [] {
      var prefix := rows[..|rows| - 1];
      CountByMemberKeys(prefix, id);
      if exists i :: 0 <= i < |prefix| && prefix[i].memberId == id {
        var i :| 0 <= i < |prefix| && prefix[i].memberId == id;
        assert rows[i] == prefix[i];
      }
      if exists i :: 0 <= i < |rows| && rows[i].memberId == id {
        var i :| 0 <= i < |rows| && rows[i].memberId == id;
        if i < |rows| - 1 {
          assert prefix[i] == rows[i];
        }
      }
    }
  }

  /** The count recorded for a member is that of the last summary row naming it. */
  lemma {:induction false} CountByMemberLastWins(rows: seq<MemberConventionSummary>, i: nat)
    requires i < |rows|
    requires forall j :: i < j < |rows| ==> rows[j].memberId != rows[i].memberId
    ensures rows[i].memberId in CountByMember(rows)
    ensures CountByMember(rows)[rows[i].memberId] == rows[i].violationCount
    decreases |rows|
  {
    if i < |rows| - 1 {
      var prefix := rows[..|rows| - 1];
      assert prefix[i] == rows[i];
      CountByMemberLastWins(prefix, i);
    }
  }

  /** `members.map(m => ({ member_id, name, violation_count: countByMember.get(m.id) ?? 0 }))` */
  function MergeSummaries(members: seq<MemberIdName>, rows: seq<MemberConventionSummary>)
    : (r: seq<MemberConventionSummaryItem>)
    ensures |r| == |members|
    ensures forall i :: 0 <= i < |r| ==> r[i].memberId == members[i].id && r[i].name == members[i].name
  {
    var counts := CountByMember(rows);
    Map(members, (m: MemberIdName) =>
      MemberConventionSummaryItem(m.id, m.name, if m.id in counts then counts[m.id] else 0))
  }

  /** A member without a summary row counts 0; otherwise the last row for the member wins. */
  lemma MergeSummariesCounts(members: seq<MemberIdName>, rows: seq<MemberConventionSummary>, i: nat)
    requires i < |members|
    ensures (forall k :: 0 <= k < |rows| ==> rows[k].memberId != members[i].id) ==>
              MergeSummaries(members, rows)[i].violationCount == 0
    ensures forall k :: 0 <= k < |rows| && rows[k].memberId == members[i].id &&
                        (forall j :: k < j < |rows| ==> rows[j].memberId != members[i].id) ==>
              MergeSummaries(members, rows)[i].violationCount == rows[k].violationCount
  {
    CountByMemberKeys(rows, members[i].id);
    forall k | 0 <= k < |rows| && rows[k].memberId == members[i].id &&
               (forall j :: k < j < |rows| ==> rows[j].memberId != members[i].id)
      ensures MergeSummaries(members, rows)[i].violationCount == rows[k].violationCount
    {
      CountByMemberLastWins(rows, k);
    }
  }

  /**
   * `getMemberConventionSummaries`: both queries are awaited, then the members' error is
   * raised before the summaries' one.
   */
  function GetMemberConventionSummaries(t: Tables, membersFault: Option<Thrown>, summaryFault: Option<Thrown>)
    : (r: Result<seq<MemberConventionSummaryItem>>)
    ensures r.Err? <==> membersFault.Some? || summaryFault.Some?
    ensures membersFault.Some? ==> r == Err(membersFault.value)
    ensures membersFault.None? && summaryFault.Some? ==> r == Err(summaryFault.value)
    ensures r.Ok? ==> r.value == MergeSummaries(Map(ActiveMembers(t.frontendMember), ToIdName), t.memberConventionSummary)
    ensures r.Ok? ==> |r.value| == |ActiveMembers(t.frontendMember)|
    ensures r.Ok? ==> forall i :: 0 <= i < |r.value| ==>
              r.value[i].memberId == ActiveMembers(t.frontendMember)[i].id &&
              r.value[i].name == ActiveMembers(t.frontendMember)[i].name
  {
    if membersFault.Some? then Err(membersFault.value)
    else if summaryFault.Some? then Err(summaryFault.value)
    else Ok(MergeSummaries(Map(ActiveMembers(t.frontendMember), ToIdName), t.memberConventionSummary))
  }

  // ---------------------------------------------------------------------------
  // Convention types
  // ---------------------------------------------------------------------------

  function TypeSortOrder(r: ConventionType): int { r.sortOrder }

  datatype ConventionTypeOption = ConventionTypeOption(value: string, labelText: string)

  function ToTypeOption(r: ConventionType): ConventionTypeOption { ConventionTypeOption(r.value, r.labelText) }

  /** `.order("sort_order")` over convention_type. */
  function TypesInOrder(rows: seq<ConventionType>): seq<ConventionType> {
    SortBy(rows, Ascending(TypeSortOrder))
  }

  lemma TypesInOrderSpec(rows: seq<ConventionType>)
    ensures Sorted(TypesInOrder(rows), Ascending(TypeSortOrder))
    ensures multiset(TypesInOrder(rows)) == multiset(rows)
  {
    AscendingTotal(TypeSortOrder);
    SortBySorted(rows, Ascending(TypeSortOrder));
  }

  function GetConventionTypes(t: Tables, fault: Option<Thrown>): (r: Result<seq<ConventionType>>)
    ensures r.Err? <==> fault.Some?
    ensures r.Ok? ==> r.value == TypesInOrder(t.conventionType)
    ensures r.Ok? ==> Sorted(r.value, Ascending(TypeSortOrder))
    ensures r.Ok? ==> multiset(r.value) == multiset(t.conventionType)
  {
    TypesInOrderSpec(t.conventionType);
    Respond(fault, TypesInOrder(t.conventionType))
  }

  function GetConventionTypeOptions(t: Tables, fault: Option<Thrown>): (r: Result<seq<ConventionTypeOption>>)
    ensures r.Err? <==> fault.Some?
    ensures r.Ok? ==> r.value == Map(TypesInOrder(t.conventionType), ToTypeOption)
    ensures r.Ok? ==> |r.value| == |t.conventionType|
    ensures r.Ok? ==> forall i :: 0 <= i < |r.value| ==>
              exists row :: row in t.conventionType && r.value[i] == ToTypeOption(row)
  {
    var sorted := TypesInOrder(t.conventionType);
    assert forall i :: 0 <= i < |sorted| ==> sorted[i] in multiset(t.conventionType);
    Respond(fault, Map(sorted, ToTypeOption))
  }

  datatype InsertConventionTypeParams = InsertConventionTypeParams(
    value: string, labelText: string, sortOrder: Option<int>)

  /** The row `insertConventionType` writes; the backend supplies id and timestamps. */
  function NewConventionType(p: InsertConventionTypeParams, id: string, now: Instant): (r: ConventionType)
    ensures r.id == id && r.value == p.value && r.labelText == p.labelText
    ensures p.sortOrder.None? ==> r.sortOrder == 0
    ensures p.sortOrder.Some? ==> r.sortOrder == p.sortOrder.value
  {
    ConventionType(id, p.value, p.labelText, p.sortOrder.GetOr(0), now, now)
  }

  method InsertConventionType(db: Database, p: InsertConventionTypeParams, newId: string, now: Instant,
                              fault: Option<Thrown>) returns (r: Result<ConventionType>)
    requires db.Valid()
    modifies db
    ensures db.Valid()
    ensures fault.Some? ==> r == Err(fault.value) && db.tables == old(db.tables)
    ensures fault.None? && HasId(old(db.tables.conventionType), TypeKey, newId) ==>
              r == Err(DUPLICATE_KEY) && db.tables == old(db.tables)
    ensures fault.None? && !HasId(old(db.tables.conventionType), TypeKey, newId) ==>
              && r == Ok(NewConventionType(p, newId, now))
              && db.tables == old(db.tables).(conventionType := old(db.tables.conventionType) + [r.value])
  {
    if fault.Some? {
      return Err(fault.value);
    }
    if HasId(db.tables.conventionType, TypeKey, newId) {
      return Err(DUPLICATE_KEY);
    }
    var row := NewConventionType(p, newId, now);
    AppendKeepsUnique(db.tables.conventionType, TypeKey, row);
    db.tables := db.tables.(conventionType := db.tables.conventionType + [row]);
    r := Ok(row);
  }

  /** `{ value?, label?, sort_order? }`; `None` is an `undefined` entry. */
  datatype ConventionTypePatch = ConventionTypePatch(
    value: Option<string>, labelText: Option<string>, sortOrder: Option<int>)

  /** Writes exactly the entries of `p` that are not `undefined`. */
  function PatchConventionType(row: ConventionType, p: ConventionTypePatch): (r: ConventionType)
    ensures r.id == row.id && r.createdAt == row.createdAt && r.updatedAt == row.updatedAt
    ensures r.value == if p.value.Some? then p.value.value else row.value
    ensures r.labelText == if p.labelText.Some? then p.labelText.value else row.labelText
    ensures r.sortOrder == if p.sortOrder.Some? then p.sortOrder.value else row.sortOrder
  {
    row.(value := p.value.GetOr(row.value),
         labelText := p.labelText.GetOr(row.labelText),
         sortOrder := p.sortOrder.GetOr(row.sortOrder))
  }

  method UpdateConventionType(db: Database, id: string, p: ConventionTypePatch, fault: Option<Thrown>)
    returns (r: Result<ConventionType>)
    requires db.Valid()
    modifies db
    ensures db.Valid()
    ensures fault.Some? ==> r == Err(fault.value) && db.tables == old(db.tables)
    ensures fault.None? && !HasId(old(db.tables.conventionType), TypeKey, id) ==>
              r == Err(NO_SINGLE_ROW) && db.tables == old(db.tables)
    ensures fault.None? && HasId(old(db.tables.conventionType), TypeKey, id) ==>
              && r == Ok(PatchConventionType(FindById(old(db.tables.conventionType), TypeKey, id).value, p))
              && db.tables == old(db.tables).(conventionType := db.tables.conventionType)
              && |db.tables.conventionType| == |old(db.tables.conventionType)|
              && forall i :: 0 <= i < |db.tables.conventionType| ==>
                   db.tables.conventionType[i] ==
                     if old(db.tables.conventionType)[i].id == id
                     then PatchConventionType(old(db.tables.conventionType)[i], p)
                     else old(db.tables.conventionType)[i]
  {
    if fault.Some? {
      return Err(fault.value);
    }
    var found := FindById(db.tables.conventionType, TypeKey, id);
    if found.None? {
      return Err(NO_SINGLE_ROW);
    }
    var f := (x: ConventionType) => PatchConventionType(x, p);
    UpdateKeepsUnique(db.tables.conventionType, TypeKey, id, f);
    db.tables := db.tables.(conventionType := UpdateWhereId(db.tables.conventionType, TypeKey, id, f));
    r := Ok(f(found.value));
  }

  method DeleteConventionType(db: Database, id: string, fault: Option<Thrown>) returns (r: Result<()>)
    requires db.Valid()
    modifies db
    ensures db.Valid()
    ensures fault.Some? ==> r == Err(fault.value) && db.tables == old(db.tables)
    ensures fault.None? ==>
              && r == Ok(())
              && db.tables == old(db.tables).(conventionType := DeleteWhereId(old(db.tables.conventionType), TypeKey, id))
  {
    if fault.Some? {
      return Err(fault.value);
    }
    DeleteKeepsUnique(db.tables.conventionType, TypeKey, id);
    db.tables := db.tables.(conventionType := DeleteWhereId(db.tables.conventionType, TypeKey, id));
    r := Ok(());
  }

  // ---------------------------------------------------------------------------
  // Topics
  // ---------------------------------------------------------------------------

  function TopicSortOrder(r: TopicConventionOption): int { r.sortOrder }

  /** The `convention_type(value, label)` relation selected with a topic. */
  datatype TypeRef = TypeRef(value: string, labelText: string)

  /** A to-one relation as the client library may hand it back: null, one object, or an array. */
  datatype Embedded<T> = EmbedNull | EmbedObject(obj: T) | EmbedArray(items: seq<T>)

  /** A to-one relation as the backend produces it: the object, or null when nothing is referenced. */
  function Embed<T>(found: Option<T>): Embedded<T> {
    if found.Some? then EmbedObject(found.value) else EmbedNull
  }

  datatype RawTopicRow = RawTopicRow(topic: TopicConventionOption, conventionType: Embedded<TypeRef>)

  /** `TopicConventionOptionWithType`: the topic's columns and its type's `value` as `type`. */
  datatype TopicConventionOptionWithType = TopicConventionOptionWithType(
    id: string, title: string, typeId: string, sortOrder: int,
    createdAt: Instant, updatedAt: Instant, typeValue: string)

  /** The topic's own columns, without the flattened type. */
  function TopicColumns(t: TopicConventionOptionWithType): TopicConventionOption {
    TopicConventionOption(t.id, t.title, t.typeId, t.sortOrder, t.createdAt, t.updatedAt)
  }

  /** Drops the embedded `convention_type` and keeps its `value` as `type` ("" when absent). */
  function FlattenTopic(row: RawTopicRow): (r: TopicConventionOptionWithType)
    ensures TopicColumns(r) == row.topic
    ensures row.conventionType.EmbedObject? ==> r.typeValue == row.conventionType.obj.value
    ensures row.conventionType.EmbedArray? && row.conventionType.items != [] ==>
              r.typeValue == row.conventionType.items[0].value
    ensures row.conventionType == EmbedNull || row.conventionType == EmbedArray([]) ==> r.typeValue == ""
  {
    var typeValue: Option<string> :=
      match row.conventionType
      case EmbedArray(items) => if items == [] then None else Some(items[0].value)
      case EmbedObject(ct) => Some(ct.value)
      case EmbedNull => None;
    var t := row.topic;
    TopicConventionOptionWithType(t.id, t.title, t.typeId, t.sortOrder, t.createdAt, t.updatedAt,
                                  typeValue.GetOr(""))
  }

  function ToTypeRef(ct: ConventionType): TypeRef { TypeRef(ct.value, ct.labelText) }

  /** The topic row with its type joined through `type_id`. */
  function JoinTopicType(types: seq<ConventionType>, topic: TopicConventionOption): RawTopicRow {
    var found := FindById(types, TypeKey, topic.typeId);
    RawTopicRow(topic, Embed(if found.Some? then Some(ToTypeRef(found.value)) else None))
  }

  /** The `value` of the type with the given id, "" when there is none. */
  function TypeValueOf(types: seq<ConventionType>, typeId: string): string {
    var found := FindById(types, TypeKey, typeId);
    if found.Some? then found.value.value else ""
  }

  function WithType(types: seq<ConventionType>): TopicConventionOption -> TopicConventionOptionWithType {
    (topic: TopicConventionOption) => FlattenTopic(JoinTopicType(types, topic))
  }

  function TopicsInOrder(rows: seq<TopicConventionOption>): seq<TopicConventionOption> {
    SortBy(rows, Ascending(TopicSortOrder))
  }

  function GetTopicConventionOptions(t: Tables, fault: Option<Thrown>)
    : (r: Result<seq<TopicConventionOptionWithType>>)
    ensures r.Err? <==> fault.Some?
    ensures r.Ok? ==> r.value == Map(TopicsInOrder(t.topicConventionOption), WithType(t.conventionType))
    ensures r.Ok? ==> |r.value| == |t.topicConventionOption|
    ensures r.Ok? ==> forall i :: 0 <= i < |r.value| ==>
              TopicColumns(r.value[i]) in t.topicConventionOption &&
              r.value[i].typeValue == TypeValueOf(t.conventionType, r.value[i].typeId)
  {
    var sorted := TopicsInOrder(t.topicConventionOption);
    assert forall i :: 0 <= i < |sorted| ==> sorted[i] in multiset(t.topicConventionOption);
    Respond(fault, Map(sorted, WithType(t.conventionType)))
  }

  /** The topics come back in ascending `sort_order`, each topic exactly once. */
  lemma TopicConventionOptionsOrdered(t: Tables)
    ensures var r := Map(TopicsInOrder(t.topicConventionOption), WithType(t.conventionType));
            && multiset(Map(r, TopicColumns)) == multiset(t.topicConventionOption)
            && forall i, j :: 0 <= i < j < |r| ==> r[i].sortOrder <= r[j].sortOrder
  {
    var sorted := TopicsInOrder(t.topicConventionOption);
    AscendingTotal(TopicSortOrder);
    SortBySorted(t.topicConventionOption, Ascending(TopicSortOrder));
    var r := Map(sorted, WithType(t.conventionType));
    assert Map(r, TopicColumns) == sorted;
    forall i, j | 0 <= i < j < |r|
      ensures r[i].sortOrder <= r[j].sortOrder
    {
      assert Ascending(TopicSortOrder)(sorted[i], sorted[j]);
      assert TopicSortOrder(sorted[i]) == sorted[i].sortOrder;
      assert TopicSortOrder(sorted[j]) == sorted[j].sortOrder;
      assert r[i].sortOrder == sorted[i].sortOrder && r[j].sortOrder == sorted[j].sortOrder;
    }
  }

  datatype InsertTopicParams = InsertTopicParams(title: string, typeId: string, sortOrder: Option<int>)

  function NewTopic(p: InsertTopicParams, id: string, now: Instant): (r: TopicConventionOption)
    ensures r.id == id && r.title == p.title && r.typeId == p.typeId
    ensures p.sortOrder.None? ==> r.sortOrder == 0
    ensures p.sortOrder.Some? ==> r.sortOrder == p.sortOrder.value
  {
    TopicConventionOption(id, p.title, p.typeId, p.sortOrder.GetOr(0), now, now)
  }

  method InsertTopicConventionOption(db: Database, p: InsertTopicParams, newId: string, now: Instant,
                                     fault: Option<Thrown>) returns (r: Result<TopicConventionOption>)
    requires db.Valid()
    modifies db
    ensures db.Valid()
    ensures fault.Some? ==> r == Err(fault.value) && db.tables == old(db.tables)
    ensures fault.None? && HasId(old(db.tables.topicConventionOption), TopicKey, newId) ==>
              r == Err(DUPLICATE_KEY) && db.tables == old(db.tables)
    ensures fault.None? && !HasId(old(db.tables.topicConventionOption), TopicKey, newId) ==>
              && r == Ok(NewTopic(p, newId, now))
              && db.tables == old(db.tables).(topicConventionOption := old(db.tables.topicConventionOption) + [r.value])
  {
    if fault.Some? {
      return Err(fault.value);
    }
    if HasId(db.tables.topicConventionOption, TopicKey, newId) {
      return Err(DUPLICATE_KEY);
    }
    var row := NewTopic(p, newId, now);
    AppendKeepsUnique(db.tables.topicConventionOption, TopicKey, row);
    db.tables := db.tables.(topicConventionOption := db.tables.topicConventionOption + [row]);
    r := Ok(row);
  }

  datatype TopicPatch = TopicPatch(title: Option<string>, typeId: Option<string>, sortOrder: Option<int>)

  function PatchTopic(row: TopicConventionOption, p: TopicPatch): (r: TopicConventionOption)
    ensures r.id == row.id && r.createdAt == row.createdAt && r.updatedAt == row.updatedAt
    ensures r.title == if p.title.Some? then p.title.value else row.title
    ensures r.typeId == if p.typeId.Some? then p.typeId.value else row.typeId
    ensures r.sortOrder == if p.sortOrder.Some? then p.sortOrder.value else row.sortOrder
  {
    row.(title := p.title.GetOr(row.title),
         typeId := p.typeId.GetOr(row.typeId),
         sortOrder := p.sortOrder.GetOr(row.sortOrder))
  }

  method UpdateTopicConventionOption(db: Database, id: string, p: TopicPatch, fault: Option<Thrown>)
    returns (r: Result<TopicConventionOption>)
    requires db.Valid()
    modifies db
    ensures db.Valid()
    ensures fault.Some? ==> r == Err(fault.value) && db.tables == old(db.tables)
    ensures fault.None? && !HasId(old(db.tables.topicConventionOption), TopicKey, id) ==>
              r == Err(NO_SINGLE_ROW) && db.tables == old(db.tables)
    ensures fault.None? && HasId(old(db.tables.topicConventionOption), TopicKey, id) ==>
              && r == Ok(PatchTopic(FindById(old(db.tables.topicConventionOption), TopicKey, id).value, p))
              && db.tables == old(db.tables).(topicConventionOption := db.tables.topicConventionOption)
              && |db.tables.topicConventionOption| == |old(db.tables.topicConventionOption)|
              && forall i :: 0 <= i < |db.tables.topicConventionOption| ==>
                   db.tables.topicConventionOption[i] ==
                     if old(db.tables.topicConventionOption)[i].id == id
                     then PatchTopic(old(db.tables.topicConventionOption)[i], p)
                     else old(db.tables.topicConventionOption)[i]
  {
    if fault.Some? {
      return Err(fault.value);
    }
    var found := FindById(db.tables.topicConventionOption, TopicKey, id);
    if found.None? {
      return Err(NO_SINGLE_ROW);
    }
    var f := (x: TopicConventionOption) => PatchTopic(x, p);
    UpdateKeepsUnique(db.tables.topicConventionOption, TopicKey, id, f);
    db.tables := db.tables.(topicConventionOption := UpdateWhereId(db.tables.topicConventionOption, TopicKey, id, f));
    r := Ok(f(found.value));
  }

  method DeleteTopicConventionOption(db: Database, id: string, fault: Option<Thrown>) returns (r: Result<()>)
    requires db.Valid()
    modifies db
    ensures db.Valid()
    ensures fault.Some? ==> r == Err(fault.value) && db.tables == old(db.tables)
    ensures fault.None? ==>
              && r == Ok(())
              && db.tables == old(db.tables).(topicConventionOption :=
                   DeleteWhereId(old(db.tables.topicConventionOption), TopicKey, id))
  {
    if fault.Some? {
      return Err(fault.value);
    }
    DeleteKeepsUnique(db.tables.topicConventionOption, TopicKey, id);
    db.tables := db.tables.(topicConventionOption := DeleteWhereId(db.tables.topicConventionOption, TopicKey, id));
    r := Ok(());
  }

  // ---------------------------------------------------------------------------
  // Convention rules
  // ---------------------------------------------------------------------------

  function RuleTopicId(r: ConventionRule): string { r.topicId }
  function RuleSortOrder(r: ConventionRule): int { r.sortOrder }

  /** `.order("topic_id").order("sort_order")` */
  function RuleOrder(): (ConventionRule, ConventionRule) -> bool {
    ThenBy(ByText(RuleTopicId), Ascending(RuleSortOrder))
  }

  function GetConventionRules(t: Tables, fault: Option<Thrown>): (r: Result<seq<ConventionRule>>)
    ensures r.Err? <==> fault.Some?
    ensures r.Ok? ==> r.value == SortBy(t.conventionRules, RuleOrder())
    ensures r.Ok? ==> multiset(r.value) == multiset(t.conventionRules)
    ensures r.Ok? ==> forall i, j :: 0 <= i < j < |r.value| ==>
              TextLe(r.value[i].topicId, r.value[j].topicId) &&
              (r.value[i].topicId == r.value[j].topicId ==> r.value[i].sortOrder <= r.value[j].sortOrder)
  {
    ConventionRulesOrdered(t.conventionRules);
    Respond(fault, SortBy(t.conventionRules, RuleOrder()))
  }

  /** Rules are grouped by topic id in text order and ascend by `sort_order` within a topic. */
  lemma ConventionRulesOrdered(rows: seq<ConventionRule>)
    ensures var s := SortBy(rows, RuleOrder());
            forall i, j :: 0 <= i < j < |s| ==>
              TextLe(s[i].topicId, s[j].topicId) &&
              (s[i].topicId == s[j].topicId ==> s[i].sortOrder <= s[j].sortOrder)
  {
    ByTextTotal(RuleTopicId);
    AscendingTotal(RuleSortOrder);
    ThenByTotal(ByText(RuleTopicId), Ascending(RuleSortOrder));
    SortBySorted(rows, RuleOrder());
    var s := SortBy(rows, RuleOrder());
    forall i, j | 0 <= i < j < |s|
      ensures TextLe(s[i].topicId, s[j].topicId)
      ensures s[i].topicId == s[j].topicId ==> s[i].sortOrder <= s[j].sortOrder
    {
      assert RuleOrder()(s[i], s[j]);
      assert RuleTopicId(s[i]) == s[i].topicId && RuleTopicId(s[j]) == s[j].topicId;
      assert RuleSortOrder(s[i]) == s[i].sortOrder && RuleSortOrder(s[j]) == s[j].sortOrder;
      if s[i].topicId == s[j].topicId {
        TextLeReflexive(s[j].topicId);
      }
    }
  }

  datatype InsertRuleParams = InsertRuleParams(topicId: string, ruleText: string, sortOrder: Option<int>)

  function NewRule(p: InsertRuleParams, id: string, now: Instant): (r: ConventionRule)
    ensures r.id == id && r.topicId == p.topicId && r.ruleText == p.ruleText
    ensures p.sortOrder.None? ==> r.sortOrder == 0
    ensures p.sortOrder.Some? ==> r.sortOrder == p.sortOrder.value
  {
    ConventionRule(id, p.topicId, p.ruleText, p.sortOrder.GetOr(0), now, now)
  }

  method InsertConventionRule(db: Database, p: InsertRuleParams, newId: string, now: Instant,
                              fault: Option<Thrown>) returns (r: Result<ConventionRule>)
    requires db.Valid()
    modifies db
    ensures db.Valid()
    ensures fault.Some? ==> r == Err(fault.value) && db.tables == old(db.tables)
    ensures fault.None? && HasId(old(db.tables.conventionRules), RuleKey, newId) ==>
              r == Err(DUPLICATE_KEY) && db.tables == old(db.tables)
    ensures fault.None? && !HasId(old(db.tables.conventionRules), RuleKey, newId) ==>
              && r == Ok(NewRule(p, newId, now))
              && db.tables == old(db.tables).(conventionRules := old(db.tables.conventionRules) + [r.value])
  {
    if fault.Some? {
      return Err(fault.value);
    }
    if HasId(db.tables.conventionRules, RuleKey, newId) {
      return Err(DUPLICATE_KEY);
    }
    var row := NewRule(p, newId, now);
    AppendKeepsUnique(db.tables.conventionRules, RuleKey, row);
    db.tables := db.tables.(conventionRules := db.tables.conventionRules + [row]);
    r := Ok(row);
  }

  datatype RulePatch = RulePatch(topicId: Option<string>, ruleText: Option<string>, sortOrder: Option<int>)

  function PatchRule(row: ConventionRule, p: RulePatch): (r: ConventionRule)
    ensures r.id == row.id && r.createdAt == row.createdAt && r.updatedAt == row.updatedAt
    ensures r.topicId == if p.topicId.Some? then p.topicId.value else row.topicId
    ensures r.ruleText == if p.ruleText.Some? then p.ruleText.value else row.ruleText
    ensures r.sortOrder == if p.sortOrder.Some? then p.sortOrder.value else row.sortOrder
  {
    row.(topicId := p.topicId.GetOr(row.topicId),
         ruleText := p.ruleText.GetOr(row.ruleText),
         sortOrder := p.sortOrder.GetOr(row.sortOrder))
  }

  method UpdateConventionRule(db: Database, id: string, p: RulePatch, fault: Option<Thrown>)
    returns (r: Result<ConventionRule>)
    requires db.Valid()
    modifies db
    ensures db.Valid()
    ensures fault.Some? ==> r == Err(fault.value) && db.tables == old(db.tables)
    ensures fault.None? && !HasId(old(db.tables.conventionRules), RuleKey, id) ==>
              r == Err(NO_SINGLE_ROW) && db.tables == old(db.tables)
    ensures fault.None? && HasId(old(db.tables.conventionRules), RuleKey, id) ==>
              && r == Ok(PatchRule(FindById(old(db.tables.conventionRules), RuleKey, id).value, p))
              && db.tables == old(db.tables).(conventionRules := db.tables.conventionRules)
              && |db.tables.conventionRules| == |old(db.tables.conventionRules)|
              && forall i :: 0 <= i < |db.tables.conventionRules| ==>
                   db.tables.conventionRules[i] ==
                     if old(db.tables.conventionRules)[i].id == id
                     then PatchRule(old(db.tables.conventionRules)[i], p)
                     else old(db.tables.conventionRules)[i]
  {
    if fault.Some? {
      return Err(fault.value);
    }
    var found := FindById(db.tables.conventionRules, RuleKey, id);
    if found.None? {
      return Err(NO_SINGLE_ROW);
    }
    var f := (x: ConventionRule) => PatchRule(x, p);
    UpdateKeepsUnique(db.tables.conventionRules, RuleKey, id, f);
    db.tables := db.tables.(conventionRules := UpdateWhereId(db.tables.conventionRules, RuleKey, id, f));
    r := Ok(f(found.value));
  }

  method DeleteConventionRule(db: Database, id: string, fault: Option<Thrown>) returns (r: Result<()>)
    requires db.Valid()
    modifies db
    ensures db.Valid()
    ensures fault.Some? ==> r == Err(fault.value) && db.tables == old(db.tables)
    ensures fault.None? ==>
              && r == Ok(())
              && db.tables == old(db.tables).(conventionRules := DeleteWhereId(old(db.tables.conventionRules), RuleKey, id))
  {
    if fault.Some? {
      return Err(fault.value);
    }
    DeleteKeepsUnique(db.tables.conventionRules, RuleKey, id);
    db.tables := db.tables.(conventionRules := DeleteWhereId(db.tables.conventionRules, RuleKey, id));
    r := Ok(());
  }

  // ---------------------------------------------------------------------------
  // Action rules
  // ---------------------------------------------------------------------------

  function ActionTopicId(r: ActionRule): string { r.topicId }
  function ActionSortOrder(r: ActionRule): int { r.sortOrder }

  /** `.order("topic_id").order("sort_order")` */
  function ActionOrder(): (ActionRule, ActionRule) -> bool {
    ThenBy(ByText(ActionTopicId), Ascending(ActionSortOrder))
  }

  function GetActionRules(t: Tables, fault: Option<Thrown>): (r: Result<seq<ActionRule>>)
    ensures r.Err? <==> fault.Some?
    ensures r.Ok? ==> r.value == SortBy(t.actionRules, ActionOrder())
    ensures r.Ok? ==> multiset(r.value) == multiset(t.actionRules)
    ensures r.Ok? ==> forall i, j :: 0 <= i < j < |r.value| ==>
              TextLe(r.value[i].topicId, r.value[j].topicId) &&
              (r.value[i].topicId == r.value[j].topicId ==> r.value[i].sortOrder <= r.value[j].sortOrder)
  {
    ActionRulesOrdered(t.actionRules);
    Respond(fault, SortBy(t.actionRules, ActionOrder()))
  }

  /** Action rules are grouped by topic id in text order and ascend by `sort_order` within a topic. */
  lemma ActionRulesOrdered(rows: seq<ActionRule>)
    ensures var s := SortBy(rows, ActionOrder());
            forall i, j :: 0 <= i < j < |s| ==>
              TextLe(s[i].topicId, s[j].topicId) &&
              (s[i].topicId == s[j].topicId ==> s[i].sortOrder <= s[j].sortOrder)
  {
    ByTextTotal(ActionTopicId);
    AscendingTotal(ActionSortOrder);
    ThenByTotal(ByText(ActionTopicId), Ascending(ActionSortOrder));
    SortBySorted(rows, ActionOrder());
    var s := SortBy(rows, ActionOrder());
    forall i, j | 0 <= i < j < |s|
      ensures TextLe(s[i].topicId, s[j].topicId)
      ensures s[i].topicId == s[j].topicId ==> s[i].sortOrder <= s[j].sortOrder
    {
      assert ActionOrder()(s[i], s[j]);
      assert ActionTopicId(s[i]) == s[i].topicId && ActionTopicId(s[j]) == s[j].topicId;
      assert ActionSortOrder(s[i]) == s[i].sortOrder && ActionSortOrder(s[j]) == s[j].sortOrder;
      if s[i].topicId == s[j].topicId {
        TextLeReflexive(s[j].topicId);
      }
    }
  }

  datatype InsertActionParams = InsertActionParams(
    topicId: string, labelText: string, value: string, sortOrder: Option<int>)

  function NewAction(p: InsertActionParams, id: string, now: Instant): (r: ActionRule)
    ensures r.id == id && r.topicId == p.topicId && r.labelText == p.labelText && r.value == p.value
    ensures p.sortOrder.None? ==> r.sortOrder == 0
    ensures p.sortOrder.Some? ==> r.sortOrder == p.sortOrder.value
  {
    ActionRule(id, p.topicId, p.labelText, p.value, p.sortOrder.GetOr(0), now, now)
  }

  method InsertActionRule(db: Database, p: InsertActionParams, newId: string, now: Instant,
                          fault: Option<Thrown>) returns (r: Result<ActionRule>)
    requires db.Valid()
    modifies db
    ensures db.Valid()
    ensures fault.Some? ==> r == Err(fault.value) && db.tables == old(db.tables)
    ensures fault.None? && HasId(old(db.tables.actionRules), ActionKey, newId) ==>
              r == Err(DUPLICATE_KEY) && db.tables == old(db.tables)
    ensures fault.None? && !HasId(old(db.tables.actionRules), ActionKey, newId) ==>
              && r == Ok(NewAction(p, newId, now))
              && db.tables == old(db.tables).(actionRules := old(db.tables.actionRules) + [r.value])
  {
    if fault.Some? {
      return Err(fault.value);
    }
    if HasId(db.tables.actionRules, ActionKey, newId) {
      return Err(DUPLICATE_KEY);
    }
    var row := NewAction(p, newId, now);
    AppendKeepsUnique(db.tables.actionRules, ActionKey, row);
    db.tables := db.tables.(actionRules := db.tables.actionRules + [row]);
    r := Ok(row);
  }

  datatype ActionPatch = ActionPatch(
    topicId: Option<string>, labelText: Option<string>, value: Option<string>, sortOrder: Option<int>)

  function PatchAction(row: ActionRule, p: ActionPatch): (r: ActionRule)
    ensures r.id == row.id && r.createdAt == row.createdAt && r.updatedAt == row.updatedAt
    ensures r.topicId == if p.topicId.Some? then p.topicId.value else row.topicId
    ensures r.labelText == if p.labelText.Some? then p.labelText.value else row.labelText
    ensures r.value == if p.value.Some? then p.value.value else row.value
    ensures r.sortOrder == if p.sortOrder.Some? then p.sortOrder.value else row.sortOrder
  {
    row.(topicId := p.topicId.GetOr(row.topicId),
         labelText := p.labelText.GetOr(row.labelText),
         value := p.value.GetOr(row.value),
         sortOrder := p.sortOrder.GetOr(row.sortOrder))
  }

  method UpdateActionRule(db: Database, id: string, p: ActionPatch, fault: Option<Thrown>)
    returns (r: Result<ActionRule>)
    requires db.Valid()
    modifies db
    ensures db.Valid()
    ensures fault.Some? ==> r == Err(fault.value) && db.tables == old(db.tables)
    ensures fault.None? && !HasId(old(db.tables.actionRules), ActionKey, id) ==>
              r == Err(NO_SINGLE_ROW) && db.tables == old(db.tables)
    ensures fault.None? && HasId(old(db.tables.actionRules), ActionKey, id) ==>
              && r == Ok(PatchAction(FindById(old(db.tables.actionRules), ActionKey, id).value, p))
              && db.tables == old(db.tables).(actionRules := db.tables.actionRules)
              && |db.tables.actionRules| == |old(db.tables.actionRules)|
              && forall i :: 0 <= i < |db.tables.actionRules| ==>
                   db.tables.actionRules[i] ==
                     if old(db.tables.actionRules)[i].id == id
                     then PatchAction(old(db.tables.actionRules)[i], p)
                     else old(db.tables.actionRules)[i]
  {
    if fault.Some? {
      return Err(fault.value);
    }
    var found := FindById(db.tables.actionRules, ActionKey, id);
    if found.None? {
      return Err(NO_SINGLE_ROW);
    }
    var f := (x: ActionRule) => PatchAction(x, p);
    UpdateKeepsUnique(db.tables.actionRules, ActionKey, id, f);
    db.tables := db.tables.(actionRules := UpdateWhereId(db.tables.actionRules, ActionKey, id, f));
    r := Ok(f(found.value));
  }

  method DeleteActionRule(db: Database, id: string, fault: Option<Thrown>) returns (r: Result<()>)
    requires db.Valid()
    modifies db
    ensures db.Valid()
    ensures fault.Some? ==> r == Err(fault.value) && db.tables == old(db.tables)
    ensures fault.None? ==>
              && r == Ok(())
              && db.tables == old(db.tables).(actionRules := DeleteWhereId(old(db.tables.actionRules), ActionKey, id))
  {
    if fault.Some? {
      return Err(fault.value);
    }
    DeleteKeepsUnique(db.tables.actionRules, ActionKey, id);
    db.tables := db.tables.(actionRules := DeleteWhereId(db.tables.actionRules, ActionKey, id));
    r := Ok(());
  }

  // ---------------------------------------------------------------- convention_logs

  /** `InsertConventionLogParams`; `None` stands for an omitted field as well as for null. */
  datatype InsertConventionLogParams = InsertConventionLogParams(
    logDate: Day, memberId: string, typeValue: string, topicId: string, actionRuleId: string,
    sprint: Option<string>, notes: Option<string>, createdBy: Option<string>)

  /** The row `insertConventionLog` writes: omitted `sprint`, `notes` and `created_by` are stored as null. */
  function NewLog(p: InsertConventionLogParams, id: string, now: Instant): (r: ConventionLog)
    ensures r.id == id && r.createdAt == now
    ensures r.logDate == p.logDate && r.memberId == p.memberId && r.typeValue == p.typeValue
    ensures r.topicId == p.topicId && r.actionRuleId == p.actionRuleId
    ensures p.sprint.None? ==> r.sprint.None?
    ensures p.notes.None? ==> r.notes.None?
    ensures p.createdBy.None? ==> r.createdBy.None?
    ensures r.sprint == p.sprint && r.notes == p.notes && r.createdBy == p.createdBy
  {
    ConventionLog(id, p.logDate, p.memberId, p.typeValue, p.topicId, p.actionRuleId,
                  p.sprint, p.notes, p.createdBy, now)
  }

  /** `insertConventionLog` resolves to nothing; the new row is not read back. */
  method InsertConventionLog(db: Database, p: InsertConventionLogParams, newId: string, now: Instant,
                             fault: Option<Thrown>) returns (r: Result<()>)
    requires db.Valid()
    modifies db
    ensures db.Valid()
    ensures fault.Some? ==> r == Err(fault.value) && db.tables == old(db.tables)
    ensures fault.None? && HasId(old(db.tables.conventionLogs), LogKey, newId) ==>
              r == Err(DUPLICATE_KEY) && db.tables == old(db.tables)
    ensures fault.None? && !HasId(old(db.tables.conventionLogs), LogKey, newId) ==>
              && r == Ok(())
              && db.tables == old(db.tables).(conventionLogs := old(db.tables.conventionLogs) + [NewLog(p, newId, now)])
  {
    if fault.Some? {
      return Err(fault.value);
    }
    if HasId(db.tables.conventionLogs, LogKey, newId) {
      return Err(DUPLICATE_KEY);
    }
    var row := NewLog(p, newId, now);
    AppendKeepsUnique(db.tables.conventionLogs, LogKey, row);
    db.tables := db.tables.(conventionLogs := db.tables.conventionLogs + [row]);
    r := Ok(());
  }

  /**
   * What `updateConventionLog` writes over an existing row: every column from
   * `log_date` through `notes` (omitted `sprint`/`notes` become null); `created_by`
   * is not part of the update, and neither are `id` and `created_at`.
   */
  function RewriteLog(row: ConventionLog, p: InsertConventionLogParams): (r: ConventionLog)
    ensures r.id == row.id && r.createdBy == row.createdBy && r.createdAt == row.createdAt
    ensures r.logDate == p.logDate && r.memberId == p.memberId && r.typeValue == p.typeValue
    ensures r.topicId == p.topicId && r.actionRuleId == p.actionRuleId
    ensures r.sprint == p.sprint && r.notes == p.notes
  {
    row.(logDate := p.logDate, memberId := p.memberId, typeValue := p.typeValue,
         topicId := p.topicId, actionRuleId := p.actionRuleId, sprint := p.sprint, notes := p.notes)
  }

  /** No `.single()` here: an id that matches no row leaves the table as it was and still succeeds. */
  method UpdateConventionLog(db: Database, id: string, p: InsertConventionLogParams, fault: Option<Thrown>)
    returns (r: Result<()>)
    requires db.Valid()
    modifies db
    ensures db.Valid()
    ensures fault.Some? ==> r == Err(fault.value) && db.tables == old(db.tables)
    ensures fault.None? ==>
              && r == Ok(())
              && db.tables == old(db.tables).(conventionLogs := db.tables.conventionLogs)
              && |db.tables.conventionLogs| == |old(db.tables.conventionLogs)|
              && forall i :: 0 <= i < |db.tables.conventionLogs| ==>
                   db.tables.conventionLogs[i] ==
                     if old(db.tables.conventionLogs)[i].id == id
                     then RewriteLog(old(db.tables.conventionLogs)[i], p)
                     else old(db.tables.conventionLogs)[i]
    ensures fault.None? && !HasId(old(db.tables.conventionLogs), LogKey, id) ==> db.tables == old(db.tables)
  {
    if fault.Some? {
      return Err(fault.value);
    }
    var f := (x: ConventionLog) => RewriteLog(x, p);
    UpdateKeepsUnique(db.tables.conventionLogs, LogKey, id, f);
    var updated := UpdateWhereId(db.tables.conventionLogs, LogKey, id, f);
    if !HasId(db.tables.conventionLogs, LogKey, id) {
      assert updated == db.tables.conventionLogs;
    }
    db.tables := db.tables.(conventionLogs := updated);
    r := Ok(());
  }

  method DeleteConventionLog(db: Database, id: string, fault: Option<Thrown>) returns (r: Result<()>)
    requires db.Valid()
    modifies db
    ensures db.Valid()
    ensures fault.Some? ==> r == Err(fault.value) && db.tables == old(db.tables)
    ensures fault.None? ==>
              && r == Ok(())
              && db.tables == old(db.tables).(conventionLogs := DeleteWhereId(old(db.tables.conventionLogs), LogKey, id))
  {
    if fault.Some? {
      return Err(fault.value);
    }
    DeleteKeepsUnique(db.tables.conventionLogs, LogKey, id);
    db.tables := db.tables.(conventionLogs := DeleteWhereId(db.tables.conventionLogs, LogKey, id));
    r := Ok(());
  }

  /** `DELETE … WHERE id = $id` removes exactly the rows with that id and keeps the others in order. */
  lemma {:induction false} DeleteWhereIdSpec<R>(rows: seq<R>, key: R -> string, id: string)
    ensures var r := DeleteWhereId(rows, key, id);
            && IsSubseq(r, rows)
            && (forall x :: x in r <==> x in rows && key(x) != id)
  {
    var p := (x: R) => key(x) != id;
    FilterIsSubseq(rows, p);
    var r := DeleteWhereId(rows, key, id);
    forall x | x in rows && key(x) != id
      ensures x in r
    {
      var k :| 0 <= k < |rows| && rows[k] == x;
      assert p(rows[k]);
    }
    forall x | x in r
      ensures key(x) != id
    {
      var k :| 0 <= k < |r| && r[k] == x;
    }
  }

  // ---------------------------------------------------------------- joined log reads

  /** The columns `conventionLogsSelect` names from `convention_logs` itself. */
  datatype LogColumns = LogColumns(
    id: string, logDate: Day, memberId: string, typeValue: string, topicId: string,
    actionRuleId: string, sprint: Option<string>, notes: Option<string>, createdAt: Instant)

  function SelectColumns(l: ConventionLog): LogColumns {
    LogColumns(l.id, l.logDate, l.memberId, l.typeValue, l.topicId, l.actionRuleId,
               l.sprint, l.notes, l.createdAt)
  }

  datatype MemberNameRef = MemberNameRef(name: string)
  datatype TopicTitleRef = TopicTitleRef(title: string)
  datatype ActionLabelRef = ActionLabelRef(labelText: string)

  /** A row as the query returns it: each embedded relation may come as object, array or null. */
  datatype RawLogRow = RawLogRow(
    columns: LogColumns,
    frontendMember: Embedded<MemberNameRef>,
    topicConventionOption: Embedded<TopicTitleRef>,
    actionRules: Embedded<ActionLabelRef>)

  /** `ConventionLogWithDetails`: each relation is one object or null. */
  datatype ConventionLogWithDetails = ConventionLogWithDetails(
    columns: LogColumns,
    frontendMember: Option<MemberNameRef>,
    topicConventionOption: Option<TopicTitleRef>,
    actionRules: Option<ActionLabelRef>)

  /** An array becomes its first element (null when empty); an object or null passes through. */
  function NormalizeEmbedded<T>(e: Embedded<T>): (r: Option<T>)
    ensures e.EmbedArray? ==> (r.Some? <==> e.items != []) && (r.Some? ==> r.value == e.items[0])
    ensures e.EmbedObject? ==> r == Some(e.obj)
    ensures e.EmbedNull? ==> r.None?
  {
    match e
    case EmbedNull => None
    case EmbedObject(o) => Some(o)
    case EmbedArray(items) => if items == [] then None else Some(items[0])
  }

  /** Normalising undoes embedding, whichever of the two shapes the relation arrived in. */
  lemma NormalizeEmbedRoundTrip<T>(found: Option<T>, v: T, rest: seq<T>)
    ensures NormalizeEmbedded(Embed(found)) == found
    ensures NormalizeEmbedded(EmbedArray([v] + rest)) == Some(v)
    ensures NormalizeEmbedded(EmbedArray(rest)).None? <==> rest == []
  {
  }

  function NormalizeLogRow(row: RawLogRow): (r: ConventionLogWithDetails)
    ensures r.columns == row.columns
    ensures r.frontendMember == NormalizeEmbedded(row.frontendMember)
    ensures r.topicConventionOption == NormalizeEmbedded(row.topicConventionOption)
    ensures r.actionRules == NormalizeEmbedded(row.actionRules)
  {
    ConventionLogWithDetails(row.columns, NormalizeEmbedded(row.frontendMember),
                             NormalizeEmbedded(row.topicConventionOption), NormalizeEmbedded(row.actionRules))
  }

  /** `normalizeLogRows`: row by row, same length and order, every selected column kept. */
  function NormalizeLogRows(rows: seq<RawLogRow>): (r: seq<ConventionLogWithDetails>)
    ensures |r| == |rows|
    ensures forall i :: 0 <= i < |r| ==>
              && r[i].columns == rows[i].columns
              && r[i].frontendMember == NormalizeEmbedded(rows[i].frontendMember)
              && r[i].topicConventionOption == NormalizeEmbedded(rows[i].topicConventionOption)
              && r[i].actionRules == NormalizeEmbedded(rows[i].actionRules)
  {
    Map(rows, NormalizeLogRow)
  }

  function EmbedMember(t: Tables, id: string): Embedded<MemberNameRef> {
    match FindById(t.frontendMember, MemberKey, id)
    case None => EmbedNull
    case Some(m) => EmbedObject(MemberNameRef(m.name))
  }

  function EmbedTopic(t: Tables, id: string): Embedded<TopicTitleRef> {
    match FindById(t.topicConventionOption, TopicKey, id)
    case None => EmbedNull
    case Some(o) => EmbedObject(TopicTitleRef(o.title))
  }

  function EmbedAction(t: Tables, id: string): Embedded<ActionLabelRef> {
    match FindById(t.actionRules, ActionKey, id)
    case None => EmbedNull
    case Some(a) => EmbedObject(ActionLabelRef(a.labelText))
  }

  /** `conventionLogsSelect` on one log: its columns and the three to-one relations it references. */
  function JoinLog(t: Tables, l: ConventionLog): RawLogRow {
    RawLogRow(SelectColumns(l), EmbedMember(t, l.memberId), EmbedTopic(t, l.topicId),
              EmbedAction(t, l.actionRuleId))
  }

  /**
   * The joined and normalised rows for `logs`, in their order: a relation is present exactly
   * when the referenced row exists, and then carries that row's name, title or label.
   */
  function WithDetails(t: Tables, logs: seq<ConventionLog>): (r: seq<ConventionLogWithDetails>)
    ensures |r| == |logs|
    ensures forall i :: 0 <= i < |r| ==>
              && r[i].columns == SelectColumns(logs[i])
              && (r[i].frontendMember.Some? <==> HasId(t.frontendMember, MemberKey, logs[i].memberId))
              && (r[i].frontendMember.Some? ==> (exists m :: m in t.frontendMember && m.id == logs[i].memberId && r[i].frontendMember.value.name == m.name))
              && (r[i].topicConventionOption.Some? <==> HasId(t.topicConventionOption, TopicKey, logs[i].topicId))
              && (r[i].topicConventionOption.Some? ==> (exists o :: o in t.topicConventionOption && o.id == logs[i].topicId && r[i].topicConventionOption.value.title == o.title))
              && (r[i].actionRules.Some? <==> HasId(t.actionRules, ActionKey, logs[i].actionRuleId))
              && (r[i].actionRules.Some? ==> (exists a :: a in t.actionRules && a.id == logs[i].actionRuleId && r[i].actionRules.value.labelText == a.labelText))
  {
    var raw := Map(logs, (l: ConventionLog) => JoinLog(t, l));
    NormalizeLogRows(raw)
  }

  function LogCreatedAt(l: ConventionLog): int { l.createdAt }
  function LogDate(l: ConventionLog): int { l.logDate }

  const LATEST_LOGS_LIMIT: nat := 10

  /** `.order("created_at", { ascending: false }).limit(10)` */
  function LatestLogs(logs: seq<ConventionLog>): seq<ConventionLog> {
    Take(SortBy(logs, Descending(LogCreatedAt)), LATEST_LOGS_LIMIT)
  }

  /**
   * At most ten logs, newest first, all taken from the table; every log left out is no newer
   * than any log returned, and all logs are returned when there are at most ten.
   */
  lemma LatestLogsSpec(logs: seq<ConventionLog>)
    ensures var r := LatestLogs(logs);
            && |r| == (if |logs| < LATEST_LOGS_LIMIT then |logs| else LATEST_LOGS_LIMIT)
            && (forall i, j :: 0 <= i < j < |r| ==> r[i].createdAt >= r[j].createdAt)
            && (forall x :: x in r ==> x in logs)
            && (forall x, y :: x in logs && x !in r && y in r ==> y.createdAt >= x.createdAt)
            && (|logs| <= LATEST_LOGS_LIMIT ==> multiset(r) == multiset(logs))
  {
    var le := Descending(LogCreatedAt);
    DescendingTotal(LogCreatedAt);
    SortBySorted(logs, le);
    var s := SortBy(logs, le);
    var r := LatestLogs(logs);
    assert r == s[..|r|];
    forall i, j | 0 <= i < j < |r|
      ensures r[i].createdAt >= r[j].createdAt
    {
      assert le(s[i], s[j]);
      assert LogCreatedAt(s[i]) == s[i].createdAt && LogCreatedAt(s[j]) == s[j].createdAt;
    }
    forall x | x in r
      ensures x in logs
    {
      SortedMembers(logs, le, x);
    }
    forall x, y | x in logs && x !in r && y in r
      ensures y.createdAt >= x.createdAt
    {
      SortedContains(logs, le, x);
      var m :| 0 <= m < |s| && s[m] == x;
      var n :| 0 <= n < |r| && r[n] == y;
      assert s[n] == y;
      assert m >= |r|;
      assert le(s[n], s[m]);
      assert LogCreatedAt(s[n]) == y.createdAt && LogCreatedAt(s[m]) == x.createdAt;
    }
    if |logs| <= LATEST_LOGS_LIMIT {
      assert r == s;
    }
  }

  function GetLatestConventionLogs(t: Tables, fault: Option<Thrown>)
    : (r: Result<seq<ConventionLogWithDetails>>)
    ensures r.Err? <==> fault.Some?
    ensures r.Ok? ==> r.value == WithDetails(t, LatestLogs(t.conventionLogs))
    ensures r.Ok? ==> |r.value| <= LATEST_LOGS_LIMIT
    ensures r.Ok? ==> forall i, j :: 0 <= i < j < |r.value| ==>
              r.value[i].columns.createdAt >= r.value[j].columns.createdAt
  {
    LatestLogsSpec(t.conventionLogs);
    var logs := LatestLogs(t.conventionLogs);
    var rows := WithDetails(t, logs);
    assert forall i :: 0 <= i < |rows| ==> rows[i].columns.createdAt == logs[i].createdAt;
    Respond(fault, rows)
  }

  /** `.gte("log_date", start).lte("log_date", end)`: both bounds inclusive. */
  function InDateRange(start: Day, end: Day): ConventionLog -> bool {
    (l: ConventionLog) => start <= l.logDate <= end
  }

  /** `.order("log_date", { ascending: false }).order("created_at", { ascending: false })` */
  function DateRangeOrder(): (ConventionLog, ConventionLog) -> bool {
    ThenBy(Descending(LogDate), Descending(LogCreatedAt))
  }

  function LogsByDateRange(logs: seq<ConventionLog>, start: Day, end: Day): seq<ConventionLog> {
    SortBy(Filter(logs, InDateRange(start, end)), DateRangeOrder())
  }

  /** Exactly the logs dated from `start` through `end`, each as often as in the table. */
  lemma LogsByDateRangeMembers(logs: seq<ConventionLog>, start: Day, end: Day)
    ensures var r := LogsByDateRange(logs, start, end);
            && (forall x :: x in r <==> x in logs && start <= x.logDate <= end)
            && multiset(r) == multiset(Filter(logs, InDateRange(start, end)))
  {
    var p := InDateRange(start, end);
    var le := DateRangeOrder();
    var f := Filter(logs, p);
    var r := SortBy(f, le);
    forall x
      ensures x in r <==> x in logs && start <= x.logDate <= end
    {
      if x in r {
        SortedMembers(f, le, x);
        var k :| 0 <= k < |f| && f[k] == x;
        assert p(f[k]);
      }
      if x in logs && start <= x.logDate <= end {
        var k :| 0 <= k < |logs| && logs[k] == x;
        assert p(logs[k]);
        SortedContains(f, le, x);
      }
    }
  }

  /** Latest date first and, within one date, latest created first. */
  lemma LogsByDateRangeOrdered(logs: seq<ConventionLog>, start: Day, end: Day)
    ensures var r := LogsByDateRange(logs, start, end);
            forall i, j :: 0 <= i < j < |r| ==>
              && r[i].logDate >= r[j].logDate
              && (r[i].logDate == r[j].logDate ==> r[i].createdAt >= r[j].createdAt)
  {
    var le := DateRangeOrder();
    var f := Filter(logs, InDateRange(start, end));
    DescendingTotal(LogDate);
    DescendingTotal(LogCreatedAt);
    ThenByTotal(Descending(LogDate), Descending(LogCreatedAt));
    SortBySorted(f, le);
    var r := SortBy(f, le);
    forall i, j | 0 <= i < j < |r|
      ensures r[i].logDate >= r[j].logDate
      ensures r[i].logDate == r[j].logDate ==> r[i].createdAt >= r[j].createdAt
    {
      assert le(r[i], r[j]);
      assert LogDate(r[i]) == r[i].logDate && LogDate(r[j]) == r[j].logDate;
      assert LogCreatedAt(r[i]) == r[i].createdAt && LogCreatedAt(r[j]) == r[j].createdAt;
    }
  }

  function GetConventionLogsByDateRange(t: Tables, start: Day, end: Day, fault: Option<Thrown>)
    : (r: Result<seq<ConventionLogWithDetails>>)
    ensures r.Err? <==> fault.Some?
    ensures r.Ok? ==> r.value == WithDetails(t, LogsByDateRange(t.conventionLogs, start, end))
    ensures r.Ok? ==> forall i :: 0 <= i < |r.value| ==> start <= r.value[i].columns.logDate <= end
    ensures r.Ok? ==> |r.value| == |Filter(t.conventionLogs, InDateRange(start, end))|
  {
    DateRangeRows(t, start, end);
    Respond(fault, WithDetails(t, LogsByDateRange(t.conventionLogs, start, end)))
  }

  /** The joined rows of the logs in range are as many as those logs, and all dated in range. */
  lemma DateRangeRows(t: Tables, start: Day, end: Day)
    ensures var rows := WithDetails(t, LogsByDateRange(t.conventionLogs, start, end));
            && |rows| == |Filter(t.conventionLogs, InDateRange(start, end))|
            && forall i :: 0 <= i < |rows| ==> start <= rows[i].columns.logDate <= end
  {
    var logs := LogsByDateRange(t.conventionLogs, start, end);
    LogsByDateRangeMembers(t.conventionLogs, start, end);
    var rows := WithDetails(t, logs);
    forall i | 0 <= i < |rows|
      ensures start <= rows[i].columns.logDate <= end
    {
      assert logs[i] in logs;
      assert rows[i].columns == SelectColumns(logs[i]);
    }
  }
}
