/**
 * The task entity, the client payload for one task, and the task table with
 * the store operations the route handlers use: insert, insert with
 * `ON CONFLICT (id) DO UPDATE`, delete by id and select by owner.
 */
module TaskModel {
  import opened Common

  /** A row id (a UUID the store generates); the model only compares ids. */
  type Id(==, !new)
  /** The authenticated user's id; the model only compares user ids. */
  type Uid(==, !new)

  /** One stored row. */
  datatype Task = Task(
    id: Id,
    uid: Uid,
    title: string,
    description: string,
    hexColour: string,
    dueAt: Millis,
    doneAt: Option<Millis>,
    createdAt: Millis,
    updatedAt: Millis)

  /**
   * What a client sends for one task: every column, possibly a client-side
   * `id` and `uid`, and the client-only bookkeeping flags.
   */
  datatype Payload = Payload(
    id: Option<Id>,
    uid: Option<Uid>,
    pendingUpdate: bool,
    pendingDelete: bool,
    title: string,
    description: string,
    hexColour: string,
    dueAt: Millis,
    doneAt: Option<Millis>,
    createdAt: Millis,
    updatedAt: Millis)

  /**
   * The column values of an insert. It has no `id`, `pendingUpdate` or
   * `pendingDelete`: the store chooses the id, and the flags are never stored.
   */
  datatype NewTask = NewTask(
    uid: Uid,
    title: string,
    description: string,
    hexColour: string,
    dueAt: Millis,
    doneAt: Option<Millis>,
    createdAt: Millis,
    updatedAt: Millis)

  /** The payload's columns with the owner taken from the authenticated caller. */
  function Stamp(caller: Uid, p: Payload): (v: NewTask)
    ensures v.uid == caller
    ensures v.doneAt == p.doneAt && v.createdAt == p.createdAt && v.updatedAt == p.updatedAt
  {
    NewTask(caller, p.title, p.description, p.hexColour, p.dueAt, p.doneAt, p.createdAt, p.updatedAt)
  }

  /**
   * Two payloads that agree on every stored column and may differ in the
   * client's `id`, `uid`, `pendingUpdate` and `pendingDelete`.
   */
  predicate SameColumns(p: Payload, q: Payload)
  {
    p.title == q.title && p.description == q.description && p.hexColour == q.hexColour
    && p.dueAt == q.dueAt && p.doneAt == q.doneAt && p.createdAt == q.createdAt && p.updatedAt == q.updatedAt
  }

  /** The row an insert of `v` creates under the store-chosen `id`. */
  function Row(id: Id, v: NewTask): Task
  {
    Task(id, v.uid, v.title, v.description, v.hexColour, v.dueAt, v.doneAt, v.createdAt, v.updatedAt)
  }

  /** The fields `ON CONFLICT DO UPDATE` overwrites agree with those of `v`. */
  predicate CarriesUpdate(t: Task, v: NewTask)
  {
    t.title == v.title && t.description == v.description && t.hexColour == v.hexColour
    && t.dueAt == v.dueAt && t.updatedAt == v.updatedAt
  }

  /** Every row is stored under its own id. */
  ghost predicate Keyed(rows: map<Id, Task>)
  {
    forall id :: id in rows ==> rows[id].id == id
  }

  /**
   * `INSERT ... VALUES (v) ON CONFLICT (id) DO UPDATE SET title, description,
   * hexColour, dueAt, updatedAt ... RETURNING *`, with `id` the store's choice.
   * Returns the table afterwards and the returned row.
   */
  function UpsertRow(rows: map<Id, Task>, id: Id, v: NewTask): (res: (map<Id, Task>, Task))
    requires Keyed(rows)
    ensures Keyed(res.0)
    ensures res.0 == rows[id := res.1] && res.1.id == id
    ensures CarriesUpdate(res.1, v)
  {
    if id in rows then
      var t := rows[id].(title := v.title, description := v.description, hexColour := v.hexColour,
                         dueAt := v.dueAt, updatedAt := v.updatedAt);
      (rows[id := t], t)
    else
      var t := Row(id, v);
      (rows[id := t], t)
  }

  /**
   * Without a conflict the row is `v` under the store's id; on a conflict the
   * stored owner, creation time and completion time survive.
   */
  lemma UpsertRowKeeps(rows: map<Id, Task>, id: Id, v: NewTask)
    requires Keyed(rows)
    ensures id !in rows ==> UpsertRow(rows, id, v).1 == Row(id, v)
    ensures id in rows ==>
      var t := UpsertRow(rows, id, v).1;
      t.uid == rows[id].uid && t.createdAt == rows[id].createdAt && t.doneAt == rows[id].doneAt
  {
  }

  /** `SELECT * FROM tasks WHERE uid = owner`, keyed by id (the order of rows is unspecified). */
  function OwnedBy(rows: map<Id, Task>, owner: Uid): (r: map<Id, Task>)
    ensures forall id :: id in r <==> id in rows && rows[id].uid == owner
    ensures forall id :: id in r ==> r[id] == rows[id]
  {
    map id | id in rows && rows[id].uid == owner :: rows[id]
  }

  /** The task table as the route handlers see it. */
  class TaskTable {
    var rows: map<Id, Task>

    ghost predicate Valid()
      reads this
    {
      Keyed(rows)
    }

    constructor (initial: map<Id, Task>)
      requires Keyed(initial)
      ensures Valid() && rows == initial
    {
      rows := initial;
    }

    /** A plain insert: a primary-key clash is a store error and changes nothing. */
    method Insert(id: Id, v: NewTask) returns (inserted: Option<Task>)
      requires Valid()
      modifies this
      ensures Valid()
      ensures id in old(rows) ==> inserted == None && rows == old(rows)
      ensures id !in old(rows) ==> inserted == Some(Row(id, v)) && rows == old(rows)[id := Row(id, v)]
    {
      if id in rows {
        inserted := None;
      } else {
        var t := Row(id, v);
        rows := rows[id := t];
        inserted := Some(t);
      }
    }

    /** Insert, or on an id conflict overwrite the fixed field subset. */
    method InsertOnConflictUpdate(id: Id, v: NewTask) returns (row: Task)
      requires Valid()
      modifies this
      ensures Valid()
      ensures (rows, row) == UpsertRow(old(rows), id, v)
    {
      var res := UpsertRow(rows, id, v);
      rows, row := res.0, res.1;
    }

    /** `DELETE FROM tasks WHERE id = id`: no owner condition, no error when nothing matches. */
    method DeleteById(id: Id)
      requires Valid()
      modifies this
      ensures Valid()
      ensures rows == old(rows) - {id}
    {
      rows := rows - {id};
    }

    /** `SELECT * FROM tasks WHERE uid = owner`. */
    method SelectByOwner(owner: Uid) returns (r: map<Id, Task>)
      ensures r == OwnedBy(rows, owner)
    {
      r := OwnedBy(rows, owner);
    }
  }
}
