/** What `create_student` and `update_student` do to the `students` table, as
    functions of the table before the request, the request and the failure
    the database reports (if any), together with the properties they keep. */
module Handlers {
  import opened Records

  /** The committed rows, by primary key. */
  type Table = map<string, Student>

  /** The two kinds of database error the handlers tell apart. */
  datatype ErrorKind = Integrity | Other

  /** What the database does besides what the rows themselves decide:
      - `LookupFails`: the lookup query raises;
      - `CommitFails(kind)`: the commit raises an error of that kind before
        anything is written (a concurrent insert of the same key, a lost
        connection, a value a column refuses);
      - `RefreshFails`: the commit goes through, then re-reading the row raises. */
  datatype Fault = NoFault | LookupFails | CommitFails(kind: ErrorKind) | RefreshFails

  /** The change a session holds until it commits: `row`, replacing the row
      stored under `from` when it edits a fetched row, or a new row when
      `from` is `None`. */
  datatype Pending = Pending(from: Option<string>, row: Student)

  /** The response and the committed table after one request. */
  datatype Step = Step(outcome: Outcome, table: Table)

  /** The primary-key invariant: every row is stored under its own studentID,
      so the table holds at most one row per studentID. */
  predicate KeyedById(t: Table) {
    forall k :: k in t ==> t[k].studentID == k
  }

  lemma KeyedRowsAreUnique(t: Table, k1: string, k2: string)
    requires KeyedById(t)
    requires k1 in t && k2 in t && t[k1].studentID == t[k2].studentID
    ensures k1 == k2
  {
  }

  /** The pending row's key is held by a row other than the one it replaces:
      writing it would violate the primary key. */
  predicate Collides(t: Table, p: Pending) {
    p.row.studentID in t && p.from != Some(p.row.studentID)
  }

  /** The table once the pending change is written. */
  function Written(t: Table, p: Pending): (w: Table)
    ensures p.row.studentID in w && w[p.row.studentID] == p.row
    ensures forall k :: k in w <==> k == p.row.studentID || (k in t && p.from != Some(k))
    ensures forall k :: k in t && k != p.row.studentID && p.from != Some(k) ==> w[k] == t[k]
  {
    (if p.from.Some? then t - {p.from.value} else t)[p.row.studentID := p.row]
  }

  /** Outcome of a commit: the new table, or the kind of error raised. */
  datatype Flushed = Flushed(table: Table) | Failed(kind: ErrorKind)

  /** Committing a pending change: an injected commit error wins; otherwise a
      primary-key collision raises an integrity error; otherwise the change
      is written. */
  function Flush(t: Table, p: Pending, fault: Fault): (r: Flushed)
    ensures r.Flushed? <==> !fault.CommitFails? && !Collides(t, p)
    ensures r.Flushed? ==> r.table == Written(t, p)
    ensures fault.CommitFails? ==> r == Failed(fault.kind)
    ensures Collides(t, p) && !fault.CommitFails? ==> r == Failed(Integrity)
  {
    if fault.CommitFails? then Failed(fault.kind)
    else if Collides(t, p) then Failed(Integrity)
    else Flushed(Written(t, p))
  }

  /** Commit, refresh and the shared error handling of both handlers: an
      integrity error rolls back and answers 400, any other error rolls back
      and answers 500. A refresh error comes after the commit, so its rollback
      has nothing left to undo. */
  function Finish(t: Table, p: Pending, fault: Fault, success: Outcome): (r: Step)
    requires success.status < 400
    ensures r.outcome == success ==> r.table == Written(t, p)
    ensures r.outcome != success && fault != RefreshFails ==> r.table == t
  {
    match Flush(t, p, fault)
    case Failed(Integrity) => Step(BadInput, t)
    case Failed(Other) => Step(ServerError, t)
    case Flushed(w) => if fault == RefreshFails then Step(ServerError, w) else Step(success, w)
  }

  /** `create_student`: look the key up; a present key is a conflict and
      nothing is written; otherwise the payload becomes a new row. */
  function CreateStep(t: Table, s: Student, fault: Fault): (r: Step)
    ensures r.table == t || (s.studentID !in t && r.table == t[s.studentID := s])
    ensures fault == LookupFails ==> r == Step(ServerError, t)
    ensures r.outcome in {Created, Conflict, BadInput, ServerError}
  {
    if fault == LookupFails then Step(ServerError, t)
    else if s.studentID in t then Step(Conflict, t)
    else Finish(t, Pending(None, s), fault, Created)
  }

  /** `update_student`: look the path id up; an absent id is not found and
      nothing is written; otherwise every field of the row, the studentID
      included, takes the payload's value. */
  function UpdateStep(t: Table, id: string, s: Student, fault: Fault): (r: Step)
    ensures r.table == t || (id in t && r.table == Written(t, Pending(Some(id), s)))
    ensures fault == LookupFails ==> r == Step(ServerError, t)
    ensures r.outcome in {Updated, NotFound, BadInput, ServerError}
  {
    if fault == LookupFails then Step(ServerError, t)
    else if id !in t then Step(NotFound, t)
    else Finish(t, Pending(Some(id), s), fault, Updated)
  }

  // ---------------------------------------------------------------------
  // create_student

  /** Create with a studentID already present: 409 "Student already exists"
      (unless the lookup itself fails), and the table is unchanged whatever
      the database does. Create is a rejection, never an upsert. */
  lemma CreateExistingIsRejected(t: Table, s: Student, fault: Fault)
    requires s.studentID in t
    ensures CreateStep(t, s, fault).table == t
    ensures fault != LookupFails ==> CreateStep(t, s, fault).outcome == Conflict
  {
  }

  /** Create with a fresh studentID: 201 "Student created successfully", one
      more row, stored under that key with the payload's four fields, and
      every other row unchanged. */
  lemma CreateInsertsFresh(t: Table, s: Student)
    requires s.studentID !in t
    ensures CreateStep(t, s, NoFault).outcome == Created
    ensures CreateStep(t, s, NoFault).table.Keys == t.Keys + {s.studentID}
    ensures CreateStep(t, s, NoFault).table[s.studentID] == s
    ensures forall k :: k in t ==> CreateStep(t, s, NoFault).table[k] == t[k]
    ensures |CreateStep(t, s, NoFault).table| == |t| + 1
  {
  }

  /** After a successful create of id k, a further create with id k answers
      409 (unless its lookup fails) and the stored row for k stays the first
      payload. */
  lemma CreateTwiceConflicts(t: Table, s: Student, again: Student, fault: Fault)
    requires s.studentID !in t
    requires again.studentID == s.studentID
    ensures var t1 := CreateStep(t, s, NoFault).table;
      CreateStep(t1, again, fault).table == t1 && t1[s.studentID] == s &&
      (fault != LookupFails ==> CreateStep(t1, again, fault).outcome == Conflict)
  {
  }

  // ---------------------------------------------------------------------
  // update_student

  /** Update of an id that is not in the table: 404 "Student not found"
      (unless the lookup itself fails), and the table is unchanged. */
  lemma UpdateMissingIsNotFound(t: Table, id: string, s: Student, fault: Fault)
    requires id !in t
    ensures UpdateStep(t, id, s, fault).table == t
    ensures fault != LookupFails ==> UpdateStep(t, id, s, fault).outcome == NotFound
  {
  }

  /** Update of a present id whose payload key is free (or is the id itself):
      200 "Student updated successfully"; the payload replaces the whole row
      and is stored under the payload's studentID; the old key is gone when
      the two differ; every other row is unchanged and the row count stays. */
  lemma UpdateReplaces(t: Table, id: string, s: Student)
    requires id in t
    requires s.studentID == id || s.studentID !in t
    ensures var w := UpdateStep(t, id, s, NoFault).table;
      && UpdateStep(t, id, s, NoFault).outcome == Updated
      && s.studentID in w && w[s.studentID] == s
      && (id in w <==> id == s.studentID)
      && (forall k :: k != id && k != s.studentID ==> (k in w <==> k in t))
      && (forall k :: k in t && k != id && k != s.studentID ==> w[k] == t[k])
      && |w| == |t|
  {
  }

  /** Update whose payload studentID differs from the path id and is held by
      another row: the commit violates the primary key, rolls back and
      answers 400, and the table is unchanged. */
  lemma UpdateOntoTakenKeyIsRejected(t: Table, id: string, s: Student, fault: Fault)
    requires id in t && s.studentID in t && s.studentID != id
    requires fault == NoFault || fault == RefreshFails
    ensures UpdateStep(t, id, s, fault) == Step(BadInput, t)
  {
  }

  /** An update that keeps the studentID changes no key: the same ids are
      present and only the addressed row changes. */
  lemma UpdateInPlaceKeepsKeys(t: Table, id: string, s: Student, fault: Fault)
    requires s.studentID == id
    ensures UpdateStep(t, id, s, fault).table.Keys == t.Keys
    ensures forall k :: k in t && k != id ==> UpdateStep(t, id, s, fault).table[k] == t[k]
  {
  }

  // ---------------------------------------------------------------------
  // Both handlers

  /** The two requests a client can send, each with the database's behaviour. */
  datatype Request =
    | CreateRequest(payload: Student, fault: Fault)
    | UpdateRequest(id: string, payload: Student, fault: Fault)

  function Handle(t: Table, req: Request): Step {
    match req
    case CreateRequest(s, fault) => CreateStep(t, s, fault)
    case UpdateRequest(id, s, fault) => UpdateStep(t, id, s, fault)
  }

  /** The committed table after handling `reqs` one after another. */
  function Final(t: Table, reqs: seq<Request>): Table
    decreases |reqs|
  {
    if reqs == [] then t else Final(Handle(t, reqs[0]).table, reqs[1..])
  }

  /** Every error response, except one raised after the commit by the
      refresh, comes with the table exactly as it was: 400 and 500 roll back,
      409 and 404 write nothing. */
  lemma ErrorsLeaveTableUnchanged(t: Table, req: Request)
    requires Handle(t, req).outcome.status >= 400
    requires !(req.fault == RefreshFails && Handle(t, req).outcome == ServerError)
    ensures Handle(t, req).table == t
  {
  }

  /** A lookup that raises rolls back and answers 500, whichever handler and
      whatever the table holds, and nothing is written. */
  lemma LookupErrorIsServerError(t: Table, req: Request)
    requires req.fault == LookupFails
    ensures Handle(t, req) == Step(ServerError, t)
  {
  }

  /** Errors map to statuses by kind: an integrity error at commit gives 400,
      any other database error gives 500, both with the table unchanged. */
  lemma CommitErrorStatus(t: Table, req: Request, kind: ErrorKind)
    requires req.fault == CommitFails(kind)
    requires req.CreateRequest? ==> req.payload.studentID !in t
    requires req.UpdateRequest? ==> req.id in t
    ensures Handle(t, req) == Step(if kind == Integrity then BadInput else ServerError, t)
  {
  }

  /** A refresh error after a successful commit answers 500 although the
      change is committed: the rollback in the error branch undoes nothing. */
  lemma RefreshErrorKeepsWrite(t: Table, s: Student)
    requires s.studentID !in t
    ensures CreateStep(t, s, RefreshFails) == Step(ServerError, t[s.studentID := s])
    ensures CreateStep(t[s.studentID := s], s, NoFault).outcome == Conflict
  {
  }

  /** The same for update: a refresh error after the committed replacement
      answers 500, and the replacement stays. */
  lemma UpdateRefreshErrorKeepsWrite(t: Table, id: string, s: Student)
    requires id in t
    requires s.studentID == id || s.studentID !in t
    ensures UpdateStep(t, id, s, RefreshFails) == Step(ServerError, Written(t, Pending(Some(id), s)))
  {
  }

  /** Both handlers keep every row stored under its own studentID. */
  lemma HandleKeepsKeyedById(t: Table, req: Request)
    requires KeyedById(t)
    ensures KeyedById(Handle(t, req).table)
  {
  }

  lemma {:induction false} FinalKeepsKeyedById(t: Table, reqs: seq<Request>)
    requires KeyedById(t)
    ensures KeyedById(Final(t, reqs))
    decreases |reqs|
  {
    if reqs != [] {
      HandleKeepsKeyedById(t, reqs[0]);
      FinalKeepsKeyedById(Handle(t, reqs[0]).table, reqs[1..]);
    }
  }

  /** Size of a written change that does not collide: one more row for a new
      row, the same count for an edit of a present row. */
  lemma WrittenSize(t: Table, p: Pending)
    requires p.from.Some? ==> p.from.value in t
    requires !Collides(t, p)
    ensures |Written(t, p)| == if p.from.None? then |t| + 1 else |t|
  {
  }

  /** No request removes a row without putting one in its place. */
  lemma HandleNeverShrinks(t: Table, req: Request)
    ensures |Handle(t, req).table| >= |t|
  {
  }

  lemma {:induction false} FinalNeverShrinks(t: Table, reqs: seq<Request>)
    ensures |Final(t, reqs)| >= |t|
    decreases |reqs|
  {
    if reqs != [] {
      HandleNeverShrinks(t, reqs[0]);
      FinalNeverShrinks(Handle(t, reqs[0]).table, reqs[1..]);
    }
  }

  /** `req` is an update addressed to `k` through its path id. */
  predicate Addresses(req: Request, k: string) {
    req.UpdateRequest? && req.id == k
  }

  /** Only an update addressed to a row can change or move it: creates never
      overwrite, and an update of another row that tries to take its key
      collides and is rolled back. */
  lemma {:induction false} RecordSurvives(t: Table, k: string, reqs: seq<Request>)
    requires k in t
    requires forall i :: 0 <= i < |reqs| ==> !Addresses(reqs[i], k)
    ensures k in Final(t, reqs) && Final(t, reqs)[k] == t[k]
    decreases |reqs|
  {
    if reqs != [] {
      var t1 := Handle(t, reqs[0]).table;
      assert !Addresses(reqs[0], k);
      assert k in t1 && t1[k] == t[k];
      RecordSurvives(t1, k, reqs[1..]);
    }
  }

  /** Uniqueness over time: once a create of id k has succeeded, a create of
      k after any requests that do not address k answers 409 (unless its
      lookup fails) and the stored row is still the first payload. */
  lemma CreateAfterAnyRequestsConflicts(t: Table, s: Student, reqs: seq<Request>, again: Student, fault: Fault)
    requires s.studentID !in t
    requires forall i :: 0 <= i < |reqs| ==> !Addresses(reqs[i], s.studentID)
    requires again.studentID == s.studentID
    requires fault != LookupFails
    ensures var tn := Final(CreateStep(t, s, NoFault).table, reqs);
      CreateStep(tn, again, fault) == Step(Conflict, tn) && tn[s.studentID] == s
  {
    CreateInsertsFresh(t, s);
    RecordSurvives(CreateStep(t, s, NoFault).table, s.studentID, reqs);
  }
}
