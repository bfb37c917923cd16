/** The record and history-entry shapes shared by the mock API and the client
    (src/app/interview/types/index.ts), plus the lookup by id that both the
    route and the client context perform with `Array.prototype.find`. */
module RecordTypes {

  /** An optional value: `None` is JavaScript's `undefined` (an absent field),
      which is distinct from `Some("")`. */
  datatype Option<+T> = None | Some(value: T) {
    function GetOr(default: T): T {
      match this
      case Some(v) => v
      case None => default
    }
  }

  /** The closed review-status enumeration. */
  datatype RecordStatus = Pending | Approved | Flagged | NeedsRevision

  /** A reviewable record. `version` is the optimistic-concurrency counter. */
  datatype Record = Record(
    id: string,
    name: string,
    status: RecordStatus,
    description: string,
    note: Option<string>,
    version: int)

  /** One status transition observed by the client during a session. */
  datatype HistoryEntry = HistoryEntry(
    id: string,
    previousStatus: RecordStatus,
    newStatus: RecordStatus,
    note: Option<string>,
    timestamp: string)

  /** No two records share an id. */
  ghost predicate UniqueIds(rs: seq<Record>) {
    forall i, j :: 0 <= i < j < |rs| ==> rs[i].id != rs[j].id
  }

  /** `rs.findIndex(r => r.id === id)`: the first position holding `id`,
      or `None` when no record has that id. */
  function FindIndex(rs: seq<Record>, id: string): (r: Option<nat>)
    ensures r.Some? ==> r.value < |rs| && rs[r.value].id == id
    ensures r.Some? ==> forall j :: 0 <= j < r.value ==> rs[j].id != id
    ensures r.None? <==> forall j :: 0 <= j < |rs| ==> rs[j].id != id
  {
    if rs == [] then None
    else if rs[0].id == id then Some(0)
    else match FindIndex(rs[1..], id)
      case None => None
      case Some(k) => Some(k + 1)
  }

  /** `rs.find(r => r.id === id)`: the first record holding `id`. */
  function Find(rs: seq<Record>, id: string): (r: Option<Record>)
    ensures r.Some? <==> exists j :: 0 <= j < |rs| && rs[j].id == id
    ensures r.Some? ==> r.value in rs && r.value.id == id
    ensures r.Some? ==> exists k :: 0 <= k < |rs| && rs[k] == r.value && forall j :: 0 <= j < k ==> rs[j].id != id
  {
    match FindIndex(rs, id)
    case None => None
    case Some(i) => Some(rs[i])
  }

  /** With unique ids, the record found is the one at any position holding the id. */
  lemma FindUnique(rs: seq<Record>, k: nat)
    requires UniqueIds(rs) && k < |rs|
    ensures FindIndex(rs, rs[k].id) == Some(k)
    ensures Find(rs, rs[k].id) == Some(rs[k])
  {
  }
}
