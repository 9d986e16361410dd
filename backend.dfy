/**
 * The relational backend as an in-memory store: one sequence of rows per table,
 * in insertion order, with the primary key `id` unique in every table that has one.
 * A query that fails at the backend is represented by a `fault` argument: the
 * value the client library would throw.
 */
module Backend {
  import opened Wrappers
  import opened Seqs
  import opened DatabaseTypes

  datatype Tables = Tables(
    frontendMember: seq<FrontendMember>,
    conventionType: seq<ConventionType>,
    topicConventionOption: seq<TopicConventionOption>,
    conventionRules: seq<ConventionRule>,
    actionRules: seq<ActionRule>,
    conventionLogs: seq<ConventionLog>,
    memberConventionSummary: seq<MemberConventionSummary>,
    activityLog: seq<ActivityLog>)

  /** The error `.single()` reports when a query does not yield exactly one row. */
  const NO_SINGLE_ROW: Thrown := ErrorInstance("JSON object requested, multiple (or no) rows returned")

  /** The error an insert reports when the generated primary key is already taken. */
  const DUPLICATE_KEY: Thrown := ErrorInstance("duplicate key value violates unique constraint")

  function MemberKey(r: FrontendMember): string { r.id }
  function TypeKey(r: ConventionType): string { r.id }
  function TopicKey(r: TopicConventionOption): string { r.id }
  function RuleKey(r: ConventionRule): string { r.id }
  function ActionKey(r: ActionRule): string { r.id }
  function LogKey(r: ConventionLog): string { r.id }
  function ActivityKey(r: ActivityLog): string { r.id }

  predicate UniqueIds<R>(rows: seq<R>, key: R -> string) {
    forall i, j :: 0 <= i < j < |rows| ==> key(rows[i]) != key(rows[j])
  }

  predicate HasId<R>(rows: seq<R>, key: R -> string, id: string) {
    exists i :: 0 <= i < |rows| && key(rows[i]) == id
  }

  /** The primary key of every table that has one is unique. */
  predicate TablesValid(t: Tables) {
    && UniqueIds(t.frontendMember, MemberKey)
    && UniqueIds(t.conventionType, TypeKey)
    && UniqueIds(t.topicConventionOption, TopicKey)
    && UniqueIds(t.conventionRules, RuleKey)
    && UniqueIds(t.actionRules, ActionKey)
    && UniqueIds(t.conventionLogs, LogKey)
    && UniqueIds(t.activityLog, ActivityKey)
  }

  /** `UPDATE … WHERE id = $id`: `f` rewrites the matching rows, the others stay as they are. */
  function UpdateWhereId<R>(rows: seq<R>, key: R -> string, id: string, f: R -> R): (r: seq<R>)
    ensures |r| == |rows|
  {
    seq(|rows|, i requires 0 <= i < |rows| => if key(rows[i]) == id then f(rows[i]) else rows[i])
  }

  /** `DELETE … WHERE id = $id`. */
  function DeleteWhereId<R>(rows: seq<R>, key: R -> string, id: string): (r: seq<R>)
    ensures forall i :: 0 <= i < |r| ==> key(r[i]) != id
  {
    Filter(rows, (x: R) => key(x) != id)
  }

  /** The row with the given key, if any. */
  function FindById<R>(rows: seq<R>, key: R -> string, id: string): (r: Option<R>)
    ensures r.Some? <==> HasId(rows, key, id)
    ensures r.Some? ==> r.value in rows && key(r.value) == id
  {
    if rows == [] then None
    else if key(rows[0]) == id then Some(rows[0])
    else
      assert forall i :: 1 <= i < |rows| ==> rows[1..][i - 1] == rows[i];
      FindById(rows[1..], key, id)
  }

  lemma UpdateKeepsUnique<R>(rows: seq<R>, key: R -> string, id: string, f: R -> R)
    requires UniqueIds(rows, key)
    requires forall x :: key(f(x)) == key(x)
    ensures UniqueIds(UpdateWhereId(rows, key, id, f), key)
  {
    var r := UpdateWhereId(rows, key, id, f);
    assert forall i :: 0 <= i < |rows| ==> key(r[i]) == key(rows[i]);
  }

  lemma AppendKeepsUnique<R>(rows: seq<R>, key: R -> string, row: R)
    requires UniqueIds(rows, key)
    requires !HasId(rows, key, key(row))
    ensures UniqueIds(rows + [row], key)
  {
  }

  lemma {:induction false} DeleteKeepsUnique<R>(rows: seq<R>, key: R -> string, id: string)
    requires UniqueIds(rows, key)
    ensures UniqueIds(DeleteWhereId(rows, key, id), key)
    decreases |rows|
  {
    if rows != [] {
      DeleteKeepsUnique(rows[1..], key, id);
      var p := (x: R) => key(x) != id;
      var rest := Filter(rows[1..], p);
      assert DeleteWhereId(rows[1..], key, id) == rest;
      forall k | 0 <= k < |rest|
        ensures key(rest[k]) != key(rows[0])
      {
        var m :| 0 <= m < |rows[1..]| && rows[1..][m] == rest[k];
        assert rows[m + 1] == rest[k];
      }
    }
  }

  /** The whole backend. Mutating operations replace `tables`. */
  class Database {
    var tables: Tables

    ghost predicate Valid()
      reads this
    {
      TablesValid(tables)
    }

    constructor (initial: Tables)
      requires TablesValid(initial)
      ensures Valid() && tables == initial
    {
      tables := initial;
    }
  }
}
