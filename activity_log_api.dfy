/**
 * The activity log: appending one entry, and the query `getActivityLogs` builds from
 * its optional filters (day bounds on `created_at`, an exact `action_type`, a limit).
 */
module ActivityLogApi {
  import opened Wrappers
  import opened Seqs
  import opened Sorting
  import opened DatabaseTypes
  import opened Backend

  /** `metadata: None` stands for an omitted field as well as for null. */
  datatype InsertActivityLogParams = InsertActivityLogParams(
    actorName: string, actionType: string, description: string, metadata: Option<Json>)

  function NewActivity(p: InsertActivityLogParams, id: string, now: Instant): (r: ActivityLog)
    ensures r.id == id && r.createdAt == now
    ensures r.actorName == p.actorName && r.actionType == p.actionType && r.description == p.description
    ensures p.metadata.None? ==> r.metadata == JNull
    ensures p.metadata.Some? ==> r.metadata == p.metadata.value
  {
    ActivityLog(id, p.actorName, p.actionType, p.description, p.metadata.GetOr(JNull), now)
  }

  /**
   * `insertActivityLog`: one row is appended and every other table and row stays as it was.
   * `newId` and `now` are the primary key and `created_at` the database generates.
   */
  method InsertActivityLog(db: Database, p: InsertActivityLogParams, newId: string, now: Instant,
                           fault: Option<Thrown>) returns (r: Result<()>)
    requires db.Valid()
    modifies db
    ensures db.Valid()
    ensures fault.Some? ==> r == Err(fault.value) && db.tables == old(db.tables)
    ensures fault.None? && HasId(old(db.tables.activityLog), ActivityKey, newId) ==>
              r == Err(DUPLICATE_KEY) && db.tables == old(db.tables)
    ensures fault.None? && !HasId(old(db.tables.activityLog), ActivityKey, newId) ==>
              && r == Ok(())
              && db.tables == old(db.tables).(activityLog := old(db.tables.activityLog) + [NewActivity(p, newId, now)])
  {
    if fault.Some? {
      return Err(fault.value);
    }
    if HasId(db.tables.activityLog, ActivityKey, newId) {
      return Err(DUPLICATE_KEY);
    }
    var row := NewActivity(p, newId, now);
    AppendKeepsUnique(db.tables.activityLog, ActivityKey, row);
    db.tables := db.tables.(activityLog := db.tables.activityLog + [row]);
    r := Ok(());
  }

  /**
   * `GetActivityLogsParams`. A date is a calendar day; `None` stands for an omitted
   * field and for the empty string, which the code treats alike.
   */
  datatype GetActivityLogsParams = GetActivityLogsParams(
    fromDate: Option<Day>, toDate: Option<Day>, actionType: Option<string>, limit: Option<nat>)

  const DEFAULT_ACTIVITY_LIMIT: nat := 20

  // ---------------------------------------------------------------- the query builder

  /** A filter the query builder can carry: `.gte`, `.lte` on `created_at`, `.eq` on `action_type`. */
  datatype Constraint =
    | CreatedAtGte(bound: Instant)
    | CreatedAtLte(bound: Instant)
    | ActionTypeEq(value: string)

  /** A query on `activity_log`, always ordered by `created_at` descending. */
  datatype ActivityQuery = ActivityQuery(constraints: seq<Constraint>, limit: Option<nat>)

  predicate Holds(c: Constraint, row: ActivityLog) {
    match c
    case CreatedAtGte(b) => row.createdAt >= b
    case CreatedAtLte(b) => row.createdAt <= b
    case ActionTypeEq(v) => row.actionType == v
  }

  predicate HoldsAll(cs: seq<Constraint>, row: ActivityLog) {
    forall i :: 0 <= i < |cs| ==> Holds(cs[i], row)
  }

  function ActivityCreatedAt(row: ActivityLog): int { row.createdAt }

  /** What the backend does with a query: filter, order newest first, then cut to the limit. */
  function Execute(rows: seq<ActivityLog>, q: ActivityQuery): seq<ActivityLog> {
    var sorted := SortBy(Filter(rows, (row: ActivityLog) => HoldsAll(q.constraints, row)),
                         Descending(ActivityCreatedAt));
    if q.limit.Some? then Take(sorted, q.limit.value) else sorted
  }

  // ---------------------------------------------------------------- what the filters mean

  predicate FromOk(p: GetActivityLogsParams, row: ActivityLog) {
    p.fromDate.Some? ==> row.createdAt >= DayStart(p.fromDate.value)
  }

  predicate ToOk(p: GetActivityLogsParams, row: ActivityLog) {
    p.toDate.Some? ==> row.createdAt <= DayEnd(p.toDate.value)
  }

  predicate TypeOk(p: GetActivityLogsParams, row: ActivityLog) {
    p.actionType.Some? && p.actionType.value != "" ==> row.actionType == p.actionType.value
  }

  /** A row passes the filters: inside both day bounds, and of the requested action type. */
  predicate Matches(p: GetActivityLogsParams, row: ActivityLog) {
    FromOk(p, row) && ToOk(p, row) && TypeOk(p, row)
  }

  lemma HoldsAllAppend(cs: seq<Constraint>, c: Constraint, row: ActivityLog)
    ensures HoldsAll(cs + [c], row) <==> HoldsAll(cs, row) && Holds(c, row)
  {
    assert (cs + [c])[|cs|] == c;
    assert forall i :: 0 <= i < |cs| ==> (cs + [c])[i] == cs[i];
  }

  function EffectiveLimit(p: GetActivityLogsParams): nat {
    p.limit.GetOr(DEFAULT_ACTIVITY_LIMIT)
  }

  /** The rows `getActivityLogs(p)` returns, stated directly on the parameters. */
  function SelectActivityLogs(rows: seq<ActivityLog>, p: GetActivityLogsParams): seq<ActivityLog> {
    Take(SortBy(Filter(rows, (row: ActivityLog) => Matches(p, row)), Descending(ActivityCreatedAt)),
         EffectiveLimit(p))
  }

  /**
   * `getActivityLogs`: the query is built by adding one constraint per filter that is given,
   * then the limit (20 unless given); a backend error is passed on, never swallowed.
   */
  method GetActivityLogs(t: Tables, p: GetActivityLogsParams, fault: Option<Thrown>)
    returns (r: Result<seq<ActivityLog>>)
    ensures r.Err? <==> fault.Some?
    ensures r.Err? ==> r.thrown == fault.value
    ensures r.Ok? ==> r.value == SelectActivityLogs(t.activityLog, p)
  {
    var limit := p.limit.GetOr(DEFAULT_ACTIVITY_LIMIT);
    var q := ActivityQuery([], None);
    if p.fromDate.Some? {
      var c := CreatedAtGte(DayStart(p.fromDate.value));
      forall row { HoldsAllAppend(q.constraints, c, row); }
      q := q.(constraints := q.constraints + [c]);
    }
    assert forall row :: HoldsAll(q.constraints, row) <==> FromOk(p, row);
    if p.toDate.Some? {
      var c := CreatedAtLte(DayEnd(p.toDate.value));
      forall row { HoldsAllAppend(q.constraints, c, row); }
      q := q.(constraints := q.constraints + [c]);
    }
    assert forall row :: HoldsAll(q.constraints, row) <==> FromOk(p, row) && ToOk(p, row);
    if p.actionType.Some? && p.actionType.value != "" {
      var c := ActionTypeEq(p.actionType.value);
      forall row { HoldsAllAppend(q.constraints, c, row); }
      q := q.(constraints := q.constraints + [c]);
    }
    assert forall row :: HoldsAll(q.constraints, row) <==> Matches(p, row);
    q := q.(limit := Some(limit));
    if fault.Some? {
      return Err(fault.value);
    }
    var built := q;
    FilterCongruent(t.activityLog, (row: ActivityLog) => HoldsAll(built.constraints, row),
                    (row: ActivityLog) => Matches(p, row));
    r := Ok(Execute(t.activityLog, q));
  }

  // ---------------------------------------------------------------- properties

  /**
   * Every row returned passes the filters, comes from the table and the result is newest
   * first and no longer than the limit (20 by default).
   */
  lemma ActivityLogsSound(rows: seq<ActivityLog>, p: GetActivityLogsParams)
    ensures var r := SelectActivityLogs(rows, p);
            && |r| <= EffectiveLimit(p)
            && (p.limit.None? ==> |r| <= DEFAULT_ACTIVITY_LIMIT)
            && (forall x :: x in r ==> x in rows && Matches(p, x))
            && (forall i, j :: 0 <= i < j < |r| ==> r[i].createdAt >= r[j].createdAt)
  {
    var le := Descending(ActivityCreatedAt);
    var pred := (row: ActivityLog) => Matches(p, row);
    var f := Filter(rows, pred);
    DescendingTotal(ActivityCreatedAt);
    SortBySorted(f, le);
    var s := SortBy(f, le);
    var r := SelectActivityLogs(rows, p);
    assert r == s[..|r|];
    forall x | x in r
      ensures x in rows && Matches(p, x)
    {
      SortedMembers(f, le, x);
      var k :| 0 <= k < |f| && f[k] == x;
      assert pred(f[k]);
    }
    forall i, j | 0 <= i < j < |r|
      ensures r[i].createdAt >= r[j].createdAt
    {
      assert le(s[i], s[j]);
      assert ActivityCreatedAt(s[i]) == s[i].createdAt && ActivityCreatedAt(s[j]) == s[j].createdAt;
    }
  }

  /** In a newest-first list cut after `n` rows, a row cut off is no newer than a row kept. */
  lemma CutOffNoNewer(s: seq<ActivityLog>, n: nat, x: ActivityLog, y: ActivityLog)
    requires Sorted(s, Descending(ActivityCreatedAt)) && n <= |s|
    requires x in s && x !in s[..n] && y in s[..n]
    ensures y.createdAt >= x.createdAt
  {
    var m :| 0 <= m < |s| && s[m] == x;
    var k :| 0 <= k < n && s[..n][k] == y;
    assert forall i :: 0 <= i < n ==> s[..n][i] == s[i];
    assert Descending(ActivityCreatedAt)(s[k], s[m]);
    assert ActivityCreatedAt(s[k]) == y.createdAt && ActivityCreatedAt(s[m]) == x.createdAt;
  }

  /**
   * The limit only cuts off older rows: a matching row left out is no newer than any row
   * returned, and when no more rows match than the limit allows, all of them are returned.
   */
  lemma ActivityLogsComplete(rows: seq<ActivityLog>, p: GetActivityLogsParams)
    ensures var r := SelectActivityLogs(rows, p);
            && (forall x, y :: x in rows && Matches(p, x) && x !in r && y in r ==> y.createdAt >= x.createdAt)
            && (|Filter(rows, (row: ActivityLog) => Matches(p, row))| <= EffectiveLimit(p) ==>
                  forall x :: x in rows && Matches(p, x) ==> x in r)
  {
    var le := Descending(ActivityCreatedAt);
    var pred := (row: ActivityLog) => Matches(p, row);
    var f := Filter(rows, pred);
    DescendingTotal(ActivityCreatedAt);
    SortBySorted(f, le);
    var s := SortBy(f, le);
    var r := SelectActivityLogs(rows, p);
    assert r == s[..|r|];
    forall x | x in rows && Matches(p, x)
      ensures x in s
    {
      var k :| 0 <= k < |rows| && rows[k] == x;
      assert pred(rows[k]);
      SortedContains(f, le, x);
    }
    forall x, y | x in rows && Matches(p, x) && x !in r && y in r
      ensures y.createdAt >= x.createdAt
    {
      CutOffNoNewer(s, |r|, x, y);
    }
    if |f| <= EffectiveLimit(p) {
      assert r == s;
    }
  }

  /**
   * The bounds `<day>T00:00:00.000Z` and `<day>T23:59:59.999Z` admit exactly the instants of
   * that UTC day up to and including 23:59:59.999000; nothing of another day gets in.
   */
  lemma DayBoundsExact(d: Day, t: Instant)
    ensures DayStart(d) <= t <= DayEnd(d) <==> t / US_PER_DAY == d && t % US_PER_DAY <= US_PER_DAY - US_PER_MS
  {
    var q, m := t / US_PER_DAY, t % US_PER_DAY;
    assert t == q * US_PER_DAY + m;
    if q < d {
      assert q * US_PER_DAY <= (d - 1) * US_PER_DAY;
    } else if q > d {
      assert (d + 1) * US_PER_DAY <= q * US_PER_DAY;
    }
  }

  /**
   * The bounds leave a gap: a row created in the last 999 microseconds of a UTC day belongs to
   * that day, yet neither that day's bounds nor the next day's admit it.
   */
  lemma DayBoundsGap(d: Day, t: Instant)
    requires DayEnd(d) < t < DayStart(d + 1)
    ensures t / US_PER_DAY == d
    ensures !(DayStart(d) <= t <= DayEnd(d)) && !(DayStart(d + 1) <= t <= DayEnd(d + 1))
  {
    DayBoundsExact(d, t);
    assert t == d * US_PER_DAY + (t - d * US_PER_DAY);
  }

  /** The gap is never empty: `<day>T23:59:59.999001Z` is one of the instants left out. */
  lemma DayBoundsGapWitness(d: Day)
    ensures DayEnd(d) + 1 < DayStart(d + 1)
    ensures (DayEnd(d) + 1) / US_PER_DAY == d
    ensures !(DayStart(d) <= DayEnd(d) + 1 <= DayEnd(d))
  {
    DayBoundsGap(d, DayEnd(d) + 1);
  }
}
