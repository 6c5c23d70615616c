/** The two request handlers as the service runs them: against one database
    session that holds the committed `students` rows and the change staged
    for the next commit, step by step (look up, stage, commit, refresh, roll
    back on error). Each handler is proved to do what the corresponding
    function of module Handlers says. */
module Store {
  import opened Records
  import opened Handlers

  /** The payload's items assigned one by one onto the fetched row: the
      result is the payload itself, whatever the row held before (a full
      replace, studentID included). */
  method AssignFields(row: Student, payload: Student) returns (r: Student)
    ensures r == payload
  {
    var items := Items(payload);
    r := row;
    for i := 0 to |items|
      invariant forall j :: 0 <= j < i ==> Get(r, FieldOrder[j]) == Get(payload, FieldOrder[j])
      invariant forall j :: i <= j < |FieldOrder| ==> Get(r, FieldOrder[j]) == Get(row, FieldOrder[j])
    {
      var (f, v) := items[i];
      r := SetAttr(r, f, v);
    }
    forall f: Field ensures Get(r, f) == Get(payload, f) {
      assert f == FieldOrder[0] || f == FieldOrder[1] || f == FieldOrder[2] || f == FieldOrder[3];
    }
    SameFields(r, payload);
  }

  class StudentStore {
    /** The committed rows of the `students` table. */
    var table: Table
    /** The change the session has staged and not yet committed. */
    var pending: Option<Pending>

    /** Between requests: the primary-key invariant holds and the session has
        nothing staged. */
    ghost predicate Valid()
      reads this
    {
      KeyedById(table) && pending == None
    }

    constructor (rows: Table)
      requires KeyedById(rows)
      ensures Valid() && table == rows
    {
      table := rows;
      pending := None;
    }

    /** The lookup by primary key: the row stored under `id`, if any. */
    method Lookup(id: string) returns (found: Option<Student>)
      requires KeyedById(table)
      ensures found.Some? <==> id in table
      ensures found.Some? ==> found.value == table[id] && found.value.studentID == id
    {
      if id in table {
        found := Some(table[id]);
      } else {
        found := None;
      }
    }

    /** Staging a change in the session; nothing is written yet. */
    method Stage(p: Pending)
      modifies this`pending
      ensures pending == Some(p)
    {
      pending := Some(p);
    }

    /** Rolling back: the staged change, if any, is discarded; the committed
        rows stay as they are. */
    method Rollback()
      modifies this`pending
      ensures pending == None
    {
      pending := None;
    }

    /** Committing the staged change. On success it is written and the
        session is clear; on an error the committed rows are untouched and the
        change stays staged until a rollback. */
    method Commit(fault: Fault) returns (err: Option<ErrorKind>)
      requires pending.Some?
      modifies this
      ensures var f := Flush(old(table), old(pending).value, fault);
        match f
        case Flushed(w) => err == None && table == w && pending == None
        case Failed(kind) => err == Some(kind) && table == old(table) && pending == old(pending)
    {
      var p := pending.value;
      if fault.CommitFails? {
        err := Some(fault.kind);
      } else if p.row.studentID in table && p.from != Some(p.row.studentID) {
        err := Some(Integrity);
      } else {
        var base := if p.from.Some? then table - {p.from.value} else table;
        table := base[p.row.studentID := p.row];
        pending := None;
        err := None;
      }
    }

    /** Commit, refresh and the error branches shared by both handlers. */
    method Finish(fault: Fault, success: Outcome) returns (r: Outcome)
      requires pending.Some?
      requires success.status < 400
      modifies this
      ensures pending == None
      ensures Step(r, table) == Handlers.Finish(old(table), old(pending).value, fault, success)
    {
      var err := Commit(fault);
      if err.Some? {
        Rollback();
        r := if err.value == Integrity then BadInput else ServerError;
      } else if fault == RefreshFails {
        // the commit has gone through; this rollback undoes nothing
        Rollback();
        r := ServerError;
      } else {
        r := success;
      }
    }

    /** `create_student`. */
    method Create(payload: Student, fault: Fault) returns (r: Outcome)
      requires Valid()
      modifies this
      ensures Valid()
      ensures Step(r, table) == CreateStep(old(table), payload, fault)
    {
      if fault == LookupFails {
        Rollback();
        return ServerError;
      }
      var found := Lookup(payload.studentID);
      if found.Some? {
        return Conflict;
      }
      Stage(Pending(None, payload));
      r := Finish(fault, Created);
      HandleKeepsKeyedById(old(table), CreateRequest(payload, fault));
    }

    /** `update_student`. */
    method Update(id: string, payload: Student, fault: Fault) returns (r: Outcome)
      requires Valid()
      modifies this
      ensures Valid()
      ensures Step(r, table) == UpdateStep(old(table), id, payload, fault)
    {
      if fault == LookupFails {
        Rollback();
        return ServerError;
      }
      var found := Lookup(id);
      if found.None? {
        return NotFound;
      }
      var row := AssignFields(found.value, payload);
      Stage(Pending(Some(id), row));
      r := Finish(fault, Updated);
      HandleKeepsKeyedById(old(table), UpdateRequest(id, payload, fault));
    }
  }
}
