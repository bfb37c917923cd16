/** The client's session state (src/app/interview/context/RecordsContext.tsx):
    the record list, the history log of status changes and the last error.
    Network calls are not modelled; what `fetch` produced is a parameter. */
module RecordsContext {
  import opened RecordTypes
  import opened RecordsRoute

  /** What a `fetch` followed by `response.json()` produced: a response with
      its `ok` flag, status text and parsed body, or an error thrown on the way. */
  datatype HttpOutcome<T> = Response(ok: bool, statusText: string, body: T) | Thrown(message: string)

  /** Whether the context's update call resolved or rethrew an error. */
  datatype UpdateOutcome = Resolved | Rethrown(message: string)

  /** The error message a failed load produces, or `None` when the load succeeds. */
  function LoadFailure(response: HttpOutcome<seq<Record>>): Option<string> {
    match response
    case Thrown(m) => Some(m)
    case Response(ok, statusText, _) => if ok then None else Some("Failed to load records: " + statusText)
  }

  /** The error message a failed update produces, or `None` when it succeeds. */
  function UpdateFailure(response: HttpOutcome<Record>): Option<string> {
    match response
    case Thrown(m) => Some(m)
    case Response(ok, statusText, _) => if ok then None else Some("Failed to update record: " + statusText)
  }

  /** The body the context sends: `{ id, ...updates }`, which never carries a version. */
  function UpdateRequest(id: string, status: Option<RecordStatus>, note: Option<string>): PatchBody {
    PatchRequest(id, status, note, None)
  }

  /** `prev.map(r => r.id === updated.id ? updated : r)` */
  function ReplaceById(rs: seq<Record>, updated: Record): (r: seq<Record>)
    ensures |r| == |rs|
    ensures forall i :: 0 <= i < |rs| ==> r[i].id == rs[i].id
  {
    seq(|rs|, i requires 0 <= i < |rs| => if rs[i].id == updated.id then updated else rs[i])
  }

  /** The history entry a successful update appends: one exactly when the record
      is known locally, a status was requested, and it differs from the local one. */
  function HistoryEntryFor(data: seq<Record>, id: string, status: Option<RecordStatus>,
                           note: Option<string>, timestamp: string): (e: Option<HistoryEntry>)
    ensures e.Some? ==> e.value.id == id && status == Some(e.value.newStatus)
    ensures e.Some? ==> e.value.previousStatus != e.value.newStatus
  {
    match Find(data, id)
    case None => None
    case Some(prev) =>
      if status.Some? && prev.status != status.value
      then Some(HistoryEntry(id, prev.status, status.value, note, timestamp))
      else None
  }

  function AppendEntry(log: seq<HistoryEntry>, entry: Option<HistoryEntry>): seq<HistoryEntry> {
    if entry.Some? then log + [entry.value] else log
  }

  /** The replacement keeps every position and changes exactly the records whose
      id is the returned record's; with unique ids that is one position, or none. */
  lemma ReplaceByIdReplacesOne(rs: seq<Record>, updated: Record)
    requires UniqueIds(rs)
    ensures |ReplaceById(rs, updated)| == |rs|
    ensures forall i :: 0 <= i < |rs| ==> ReplaceById(rs, updated)[i].id == rs[i].id
    ensures UniqueIds(ReplaceById(rs, updated))
    ensures forall k :: 0 <= k < |rs| && rs[k].id == updated.id ==> ReplaceById(rs, updated) == rs[k := updated]
    ensures (forall k :: 0 <= k < |rs| ==> rs[k].id != updated.id) ==> ReplaceById(rs, updated) == rs
  {
  }

  /** An entry is appended exactly in the documented case, and it records the
      local previous status, the requested status and the requested note. */
  lemma HistoryEntryCondition(data: seq<Record>, id: string, status: Option<RecordStatus>,
                              note: Option<string>, timestamp: string)
    ensures var e := HistoryEntryFor(data, id, status, note, timestamp);
      && (e.Some? <==> (exists j :: 0 <= j < |data| && data[j].id == id) &&
                       status.Some? && Find(data, id).value.status != status.value)
      && (e.Some? ==> e.value == HistoryEntry(id, Find(data, id).value.status, status.value, note, timestamp))
  {
  }

  /** The context never sends a version, so its writes take the store's
      unconditional path: never a conflict, and a success whenever the id exists. */
  lemma ContextWritesBypassVersionCheck(rs: seq<Record>, id: string, status: Option<RecordStatus>, note: Option<string>)
    ensures !PatchStep(rs, UpdateRequest(id, status, note)).0.Conflict?
    ensures PatchStep(rs, UpdateRequest(id, status, note)).0.Ok? <==> exists j :: 0 <= j < |rs| && rs[j].id == id
  {
    PatchWithoutVersionIsUnconditional(rs, id, status, note);
  }

  /** When the client's list equals the store's, replacing by the record the
      store returned leaves the client's list equal to the store's again. */
  lemma ReplaceMirrorsStore(rs: seq<Record>, body: PatchBody)
    requires StoreInvariant(rs)
    requires PatchStep(rs, body).0.Ok?
    ensures ReplaceById(rs, PatchStep(rs, body).0.record) == PatchStep(rs, body).1
  {
    var i := FindIndex(rs, body.id).value;
    ReplaceByIdReplacesOne(rs, PatchStep(rs, body).0.record);
  }

  /** The provider's state cells. */
  class RecordsProvider {
    var data: seq<Record>
    var log: seq<HistoryEntry>
    var err: Option<string>

    /** Empty list, empty log, no error. */
    constructor ()
      ensures data == [] && log == [] && err == None
    {
      data, log, err := [], [], None;
    }

    /** `loadData` (also behind `refresh`): the list is replaced wholesale on
        success; on failure it is kept and the error is recorded. */
    method LoadData(response: HttpOutcome<seq<Record>>)
      modifies this
      ensures err == LoadFailure(response)
      ensures data == (if err.None? then response.body else old(data))
      ensures log == old(log)
    {
      err := None;
      match response {
        case Thrown(m) =>
          err := Some(m);
        case Response(ok, statusText, incoming) =>
          if !ok {
            err := Some("Failed to load records: " + statusText);
          } else {
            data := incoming;
          }
      }
    }

    /** `updateRecord` (`doUpdate`): on success, replace the record whose id is
        the returned one and append a history entry when the status changed
        from the locally known one; on failure, keep list and log, record the
        error and rethrow it. */
    method UpdateRecord(id: string, status: Option<RecordStatus>, note: Option<string>,
                        response: HttpOutcome<Record>, timestamp: string) returns (outcome: UpdateOutcome)
      modifies this
      ensures err == UpdateFailure(response)
      ensures outcome == (if err.None? then Resolved else Rethrown(err.value))
      ensures data == (if err.None? then ReplaceById(old(data), response.body) else old(data))
      ensures log == (if err.None? then AppendEntry(old(log), HistoryEntryFor(old(data), id, status, note, timestamp)) else old(log))
    {
      err := None;
      if response.Thrown? {
        err := Some(response.message);
        return Rethrown(response.message);
      }
      if !response.ok {
        var message := "Failed to update record: " + response.statusText;
        err := Some(message);
        return Rethrown(message);
      }
      var updated := response.body;
      var known := data;
      data := ReplaceById(data, updated);
      var prevRecord := Find(known, id);
      if prevRecord.Some? && status.Some? && prevRecord.value.status != status.value {
        var entry := HistoryEntry(id, prevRecord.value.status, status.value, note, timestamp);
        log := log + [entry];
      }
      outcome := Resolved;
    }

    /** `clearHistory` (`purgeLog`): the log is emptied; records and error are untouched. */
    method ClearHistory()
      modifies this
      ensures log == [] && data == old(data) && err == old(err)
    {
      log := [];
    }
  }

  /** A session that clears the log after three recorded transitions sees an
      empty log, with the records as they were. */
  method ClearAfterThreeTransitions(rs: seq<Record>) returns (before: seq<HistoryEntry>, after: seq<HistoryEntry>, records: seq<Record>)
    requires |rs| >= 3 && UniqueIds(rs)
    requires forall i :: 0 <= i < |rs| ==> rs[i].status == Pending
    ensures |before| == 3 && after == []
    ensures records == ReplaceById(ReplaceById(ReplaceById(rs, rs[0].(status := Approved)), rs[1].(status := Approved)), rs[2].(status := Approved))
  {
    var ctx := new RecordsProvider();
    ctx.LoadData(Response(true, "OK", rs));
    var o1 := ctx.UpdateRecord(rs[0].id, Some(Approved), None, Response(true, "OK", rs[0].(status := Approved)), "t1");
    var o2 := ctx.UpdateRecord(rs[1].id, Some(Approved), None, Response(true, "OK", rs[1].(status := Approved)), "t2");
    var o3 := ctx.UpdateRecord(rs[2].id, Some(Approved), None, Response(true, "OK", rs[2].(status := Approved)), "t3");
    before := ctx.log;
    ctx.ClearHistory();
    after := ctx.log;
    records := ctx.data;
  }
}
