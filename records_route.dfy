/** The in-memory records API (src/app/api/mock/records/route.ts): the seed
    collection, the paginated read, and the partial update guarded by an
    optimistic version check. */
module RecordsRoute {
  import opened RecordTypes
  import opened RecordFilter

  // ---------------------------------------------------------------- seed data

  function SeedRecord(id: string, name: string, status: RecordStatus, description: string, note: Option<string>): Record {
    Record(id, name, status, description, note, 1)
  }

  /** The twelve records the module-level array starts with, all at version 1.
      Long texts are written as concatenations of short literals only to keep
      verification cheap; the values are the texts as given. */
  function SeedRecords(): (rs: seq<Record>)
    ensures |rs| == 12
  {
    [ SeedRecord("1", "Anopheles " + "gambiae ♀", Pending,
        "Collected " + "by CDC " + "light trap " + "near " + "Nyansato " +
        "village " + "(Ghana), 12 " + "Mar 2026. " + "Indoor " + "resting " +
        "capture at " + "05:30. Wing " + "venation " + "suggests " + "An. gambiae " +
        "s.l.; " + "awaiting " + "PCR " + "confirmation " + "for s.s. vs " +
        "coluzzii.",
        None),
      SeedRecord("2", "Anopheles " + "funestus ♀", Approved,
        "Human " + "landing " + "catch (HLC) " + "in Kagera " + "region " +
        "(Tanzania), " + "18 Mar " + "2026, " + "22:15. " + "Distinctively " +
        "banded legs " + "and pale " + "wing spots. " + "Verified by " + "senior " +
        "entomologist.",
        Some("Morphology " + "consistent " + "with An. " + "funestus " + "s.s.; add " +
        "to " + "indoor-resting " + "dataset.")),
      SeedRecord("3", "Anopheles " + "arabiensis ♀", Flagged,
        "Pyrethrum " + "spray catch " + "in Mchinji " + "(Malawi), " + "09 Mar " +
        "2026. " + "Specimen " + "abdomen " + "damaged; " + "blood meal " +
        "analysis " + "inconclusive.",
        Some("Image " + "blurry; " + "request " + "re-photo " + "and " +
        "consider " + "ELISA for " + "bloodmeal " + "if tissue " + "sufficient.")),
      SeedRecord("4", "Anopheles " + "gambiae " + "larva (L3)", NeedsRevision,
        "Larval dip " + "from " + "irrigated " + "rice field " + "near Kano " +
        "(Nigeria), " + "21 Mar " + "2026. Head " + "capsule and " + "palmate " +
        "hairs " + "photographed; " + "metadata " + "incomplete.",
        Some("Missing " + "water body " + "type " + "classification " + "and " +
        "turbidity; " + "please add " + "habitat " + "details.")),
      SeedRecord("5", "Anopheles " + "coluzzii ♀", Approved,
        "Indoor " + "resting " + "collection, " + "Bobo-Dioulasso " + "(Burkina " +
        "Faso), 16 " + "Mar 2026. " + "PCR " + "(SINE200) " + "confirms " +
        "coluzzii. " + "Clear " + "maxillary " + "palps and " + "wing spots.",
        Some("Confirmed " + "coluzzii by " + "molecular " + "assay; " + "include in " +
        "vector " + "composition " + "analysis.")),
      SeedRecord("6", "Anopheles " + "gambiae ♂", Pending,
        "Sweep net " + "capture " + "near " + "breeding " + "site in " +
        "Kisumu " + "(Kenya), 10 " + "Mar 2026. " + "Plumose " + "antennae " +
        "visible; " + "specimen " + "intact. " + "Awaiting " + "species-level " +
        "confirmation.",
        None),
      SeedRecord("7", "Anopheles " + "rivulorum ♀", Flagged,
        "Window exit " + "trap, " + "Nkhata Bay " + "(Malawi), " + "13 Mar " +
        "2026. " + "Possible " + "mislabel: " + "morphology " + "closer to " +
        "An. " + "funestus " + "group; " + "needs " + "expert " +
        "review.",
        Some("Suspected " + "mis-ID; " + "cross-check " + "funestus-group " + "keys and " +
        "reclassify " + "if needed.")),
      SeedRecord("8", "Anopheles " + "gambiae egg " + "raft", NeedsRevision,
        "Collected " + "from " + "temporary " + "puddle, " + "Tamale " +
        "(Ghana), 08 " + "Mar 2026. " + "Photographs " + "show egg " + "raft but " +
        "GPS " + "accuracy " + "low (±200m).",
        Some("Update " + "coordinates " + "and add " + "microhabitat " + "photo for " +
        "verification.")),
      SeedRecord("9", "Anopheles " + "pharoensis ♀", Approved,
        "Light trap " + "near " + "irrigation " + "canal, " + "Gezira " +
        "(Sudan), 19 " + "Mar 2026. " + "Diagnostic " + "pale " + "scaling on " +
        "wings; " + "specimen in " + "good " + "condition.",
        None),
      SeedRecord("10", "Anopheles " + "gambiae " + "s.s. ♀", Approved,
        "HLC indoor, " + "Savelugu " + "(Ghana), 15 " + "Mar 2026. " + "PCR " +
        "confirms " + "s.s.; ELISA " + "positive " + "for human " + "blood meal. " +
        "Eligible " + "for biting " + "time " + "analysis.",
        Some("Add to " + "vector-human " + "contact " + "dataset " + "(indoor, " +
        "late " + "evening).")),
      SeedRecord("11", "Anopheles " + "coustani ♀", Pending,
        "Outdoor " + "resting " + "capture, " + "Kilifi " + "(Kenya), 12 " +
        "Mar 2026. " + "Secondary " + "vector; " + "useful for " + "zoophily " +
        "assessment. " + "Awaiting " + "supervisor " + "review.",
        None),
      SeedRecord("12", "Anopheles " + "funestus ♀ " + "(damaged)", Flagged,
        "PSC in " + "Muleba " + "(Tanzania), " + "20 Mar " + "2026. " +
        "Abdomen " + "ruptured; " + "parity " + "determination " + "not " +
        "possible.",
        Some("Consider " + "excluding " + "from parity " + "analysis; " + "keep for " +
        "species " + "presence " + "record only."))
    ]
  }

  /** Every record has a positive version and no id occurs twice. */
  ghost predicate StoreInvariant(rs: seq<Record>) {
    UniqueIds(rs) && forall i :: 0 <= i < |rs| ==> rs[i].version >= 1
  }

  /** The seed's ids, in order. */
  const SeedIds: seq<string> := ["1", "2", "3", "4", "5", "6", "7", "8", "9", "10", "11", "12"]

  lemma SeedFields()
    ensures forall i :: 0 <= i < 12 ==> SeedRecords()[i].id == SeedIds[i] && SeedRecords()[i].version == 1
  {
  }

  lemma SeedIdsDistinct()
    ensures forall i, j :: 0 <= i < j < 12 ==> SeedIds[i] != SeedIds[j]
  {
  }

  /** The first seed record is found under id "1", at version 1. */
  lemma SeedFirstRecord()
    ensures |SeedRecords()| == 12
    ensures FindIndex(SeedRecords(), "1") == Some(0) && SeedRecords()[0].version == 1
  {
    assert SeedRecords()[0].id == "1";
  }

  /** The seed holds twelve distinct ids, every record at version 1. */
  lemma SeedSatisfiesInvariant()
    ensures StoreInvariant(SeedRecords())
    ensures forall i :: 0 <= i < |SeedRecords()| ==> SeedRecords()[i].version == 1
  {
    SeedFields();
    SeedIdsDistinct();
  }

  // ---------------------------------------------------------------- GET

  /** `parseInt(param, 10)`: an integer, or `NaN` when the text has no leading digits. */
  datatype ParsedInt = Int(n: int) | NaN

  /** `x < 1` on a JavaScript number: false for `NaN`. */
  predicate LessThanOne(x: ParsedInt) {
    x.Int? && x.n < 1
  }

  const DefaultPage: int := 1
  const DefaultLimit: int := 10

  /** The read's response. */
  datatype GetResponse =
    | AllRecords(records: seq<Record>)
    | Paginated(records: seq<Record>, totalCount: nat, page: ParsedInt, limit: ParsedInt, statusCounts: StatusCounts)
    | InvalidPagination(error: string)

  const InvalidPaginationMessage: string := "page and limit must be positive integers"

  function Min(a: int, b: int): int { if a < b then a else b }

  /** `rs.slice(start, end)` for non-negative bounds: both are clamped to the length. */
  function Slice(rs: seq<Record>, start: nat, end: nat): (r: seq<Record>)
    requires start <= end
  {
    rs[Min(start, |rs|)..Min(end, |rs|)]
  }

  /** The slice bounds of a validated page: `(page - 1) * limit` and `start + limit`;
      a `NaN` bound is read as 0 by `slice`, so any `NaN` gives `[0, 0)`. */
  function SliceBounds(page: ParsedInt, limit: ParsedInt): (b: (nat, nat))
    requires !LessThanOne(page) && !LessThanOne(limit)
    ensures b.0 <= b.1
  {
    if page.NaN? || limit.NaN? then (0, 0)
    else ((page.n - 1) * limit.n, (page.n - 1) * limit.n + limit.n)
  }

  /** `GET`. `pageParam`/`limitParam` are `None` when the query parameter is
      absent or empty; otherwise they hold what `parseInt` made of it. */
  function Page(rs: seq<Record>, pageParam: Option<ParsedInt>, limitParam: Option<ParsedInt>): (r: GetResponse)
    ensures r.AllRecords? <==> pageParam.None? && limitParam.None?
    ensures r.Paginated? ==> r.totalCount == |rs| && |r.records| <= |rs|
  {
    if pageParam.None? && limitParam.None? then AllRecords(rs)
    else
      var page := pageParam.GetOr(Int(DefaultPage));
      var limit := limitParam.GetOr(Int(DefaultLimit));
      if LessThanOne(page) || LessThanOne(limit) then InvalidPagination(InvalidPaginationMessage)
      else
        var bounds := SliceBounds(page, limit);
        Paginated(Slice(rs, bounds.0, bounds.1), |rs|, page, limit, CountsByFilter(rs))
  }

  /** With neither parameter the whole collection comes back, unchanged and in order. */
  lemma PageWithoutParamsIsEverything(rs: seq<Record>)
    ensures Page(rs, None, None) == AllRecords(rs)
  {
  }

  /** The request is rejected exactly when a parameter is present and one of
      the effective values is a number below 1; a rejection carries no records. */
  lemma PageRejectsNonPositive(rs: seq<Record>, pageParam: Option<ParsedInt>, limitParam: Option<ParsedInt>)
    ensures Page(rs, pageParam, limitParam).InvalidPagination? <==>
      (pageParam.Some? || limitParam.Some?) &&
      ((pageParam.Some? && pageParam.value.Int? && pageParam.value.n < 1) ||
       (limitParam.Some? && limitParam.value.Int? && limitParam.value.n < 1))
  {
  }

  /** For positive `page` and `limit` the slice is `rs[(page-1)*limit .. min(|rs|, page*limit))`,
      empty (not an error) past the end, never longer than `limit`; `totalCount`
      is the whole length and the response echoes `page` and `limit`. */
  lemma PageSlice(rs: seq<Record>, page: int, limit: int)
    requires page >= 1 && limit >= 1
    ensures var resp := Page(rs, Some(Int(page)), Some(Int(limit)));
      && resp.Paginated?
      && resp.totalCount == |rs|
      && resp.page == Int(page) && resp.limit == Int(limit)
      && |resp.records| <= limit
      && ((page - 1) * limit >= |rs| ==> resp.records == [])
      && ((page - 1) * limit < |rs| ==> resp.records == rs[(page - 1) * limit .. Min(|rs|, page * limit)])
  {
    var start := (page - 1) * limit;
    assert start + limit == page * limit;
    assert SliceBounds(Int(page), Int(limit)) == (start, start + limit);
  }

  /** The status counts describe the whole collection, whatever page is asked for:
      each is that status's filter length, and together they sum to `totalCount`. */
  lemma PageCountsCoverAllRecords(rs: seq<Record>, pageParam: Option<ParsedInt>, limitParam: Option<ParsedInt>)
    requires Page(rs, pageParam, limitParam).Paginated?
    ensures var resp := Page(rs, pageParam, limitParam);
      && (forall s :: resp.statusCounts.Get(s) == |FilterRecords(rs, ByStatus(s))|)
      && resp.statusCounts.Total() == resp.totalCount
  {
    CountsByFilterTotal(rs);
  }

  /** A parameter that does not parse as a number passes validation and yields an empty slice. */
  lemma PageNaNIsEmpty(rs: seq<Record>, pageParam: Option<ParsedInt>, limitParam: Option<ParsedInt>)
    requires pageParam == Some(NaN) || limitParam == Some(NaN)
    requires !(pageParam.Some? && LessThanOne(pageParam.value)) && !(limitParam.Some? && LessThanOne(limitParam.value))
    ensures Page(rs, pageParam, limitParam).Paginated?
    ensures Page(rs, pageParam, limitParam).records == []
  {
  }

  // ---------------------------------------------------------------- PATCH

  /** The body of a `PATCH`, or `Malformed` when it cannot be read as JSON. */
  datatype PatchBody =
    | Malformed
    | PatchRequest(id: string, status: Option<RecordStatus>, note: Option<string>, version: Option<int>)

  /** The outcome of a `PATCH`: 404, 409 with the current record, 200 with the
      updated record, or 400. */
  datatype PatchResult =
    | NotFound(error: string)
    | Conflict(serverRecord: Record)
    | Ok(record: Record)
    | InvalidRequest

  /** Applies a successful update's field changes to one record: `status` only
      if supplied, `note` whenever it is not `undefined`, and `version + 1`. */
  function ApplyUpdate(r: Record, status: Option<RecordStatus>, note: Option<string>): (u: Record)
    ensures u.id == r.id && u.name == r.name && u.description == r.description
    ensures u.version == r.version + 1
  {
    r.(status := status.GetOr(r.status),
       note := if note.Some? then note else r.note,
       version := r.version + 1)
  }

  /** The specification of `PATCH`: the response and the collection afterwards. */
  function PatchStep(rs: seq<Record>, body: PatchBody): (step: (PatchResult, seq<Record>))
    ensures |step.1| == |rs|
    ensures !step.0.Ok? ==> step.1 == rs
    ensures step.0.Ok? ==> body.PatchRequest? && step.0.record.id == body.id
  {
    match body
    case Malformed => (InvalidRequest, rs)
    case PatchRequest(id, status, note, version) =>
      match FindIndex(rs, id)
      case None => (NotFound("Record with id " + id + " not found."), rs)
      case Some(i) =>
        if version.Some? && rs[i].version != version.value then (Conflict(rs[i]), rs)
        else
          var updated := ApplyUpdate(rs[i], status, note);
          (Ok(updated), rs[i := updated])
  }

  /** An unknown id gives `NotFound` and leaves every record as it was. */
  lemma PatchUnknownId(rs: seq<Record>, body: PatchBody)
    requires body.PatchRequest?
    ensures PatchStep(rs, body).0.NotFound? <==> forall j :: 0 <= j < |rs| ==> rs[j].id != body.id
    ensures PatchStep(rs, body).0.NotFound? ==> PatchStep(rs, body).1 == rs
  {
  }

  /** A supplied version that differs from the record's gives `Conflict` carrying
      the current record, and changes nothing. */
  lemma PatchStaleVersion(rs: seq<Record>, body: PatchBody, i: nat)
    requires body.PatchRequest? && FindIndex(rs, body.id) == Some(i)
    ensures PatchStep(rs, body).0.Conflict? <==> body.version.Some? && body.version.value != rs[i].version
    ensures PatchStep(rs, body).0.Conflict? ==>
      PatchStep(rs, body).0.serverRecord == rs[i] && PatchStep(rs, body).1 == rs
  {
  }

  /** (`i` is the position `find` selects: the first record with the id.)
      A successful update bumps the version by exactly one, sets `status` only
      when supplied and `note` whenever supplied (even to ""), keeps id, name
      and description, and leaves every other record and the order untouched. */
  lemma PatchSuccess(rs: seq<Record>, body: PatchBody, i: nat)
    requires body.PatchRequest? && FindIndex(rs, body.id) == Some(i)
    requires PatchStep(rs, body).0.Ok?
    ensures var (res, rs') := PatchStep(rs, body);
      && res.record.version == rs[i].version + 1
      && res.record.id == rs[i].id
      && res.record.name == rs[i].name
      && res.record.description == rs[i].description
      && res.record.status == (if body.status.Some? then body.status.value else rs[i].status)
      && res.record.note == (if body.note.Some? then body.note else rs[i].note)
      && |rs'| == |rs| && rs'[i] == res.record
      && (forall j :: 0 <= j < |rs| && j != i ==> rs'[j] == rs[j])
  {
  }

  /** With no version supplied the update is applied whenever the id exists. */
  lemma PatchWithoutVersionIsUnconditional(rs: seq<Record>, id: string, status: Option<RecordStatus>, note: Option<string>)
    ensures PatchStep(rs, PatchRequest(id, status, note, None)).0.Ok? <==>
      exists j :: 0 <= j < |rs| && rs[j].id == id
  {
  }

  /** Every outcome keeps the ids in place and never lowers a version; a record
      that changes goes up by exactly one. Hence the invariant is preserved. */
  lemma PatchPreservesInvariant(rs: seq<Record>, body: PatchBody)
    requires StoreInvariant(rs)
    ensures var rs' := PatchStep(rs, body).1;
      && |rs'| == |rs|
      && (forall j :: 0 <= j < |rs| ==> rs'[j].id == rs[j].id && rs'[j].version >= rs[j].version)
      && (forall j :: 0 <= j < |rs| && rs'[j] != rs[j] ==> rs'[j].version == rs[j].version + 1)
      && StoreInvariant(rs')
  {
    var rs' := PatchStep(rs, body).1;
    assert forall j :: 0 <= j < |rs| ==> rs'[j].id == rs[j].id;
  }

  /** The optimistic-concurrency guarantee: two updates presenting the same
      version `n`, applied one after the other, cannot both succeed; when the
      first succeeds, the second is a `Conflict` whose server record is at `n + 1`. */
  lemma StaleSecondWriteConflicts(rs: seq<Record>, first: PatchBody, second: PatchBody, n: int)
    requires first.PatchRequest? && second.PatchRequest? && first.id == second.id
    requires first.version == Some(n) && second.version == Some(n)
    ensures var (res1, rs1) := PatchStep(rs, first);
      var res2 := PatchStep(rs1, second).0;
      && !(res1.Ok? && res2.Ok?)
      && (res1.Ok? ==> res2.Conflict? && res2.serverRecord == res1.record && res2.serverRecord.version == n + 1)
  {
    var (res1, rs1) := PatchStep(rs, first);
    if res1.Ok? {
      var i := FindIndex(rs, first.id).value;
      assert rs1 == rs[i := res1.record];
      assert forall j :: 0 <= j < |rs1| ==> rs1[j].id == rs[j].id;
      assert FindIndex(rs1, second.id) == Some(i);
    }
  }

  // ---------------------------------------------------------------- the store

  /** The module-level `records` array and the two handlers that use it. */
  class RecordStore {
    var records: seq<Record>

    ghost predicate Valid()
      reads this
    {
      StoreInvariant(records)
    }

    /** The process starts with the seed collection. */
    constructor ()
      ensures Valid() && records == SeedRecords()
    {
      records := SeedRecords();
      SeedSatisfiesInvariant();
    }

    /** `GET`: reads the collection and changes nothing. */
    method Get(pageParam: Option<ParsedInt>, limitParam: Option<ParsedInt>) returns (resp: GetResponse)
      ensures resp == Page(records, pageParam, limitParam)
    {
      resp := Page(records, pageParam, limitParam);
    }

    /** `PATCH`: find the record, check the version, then update its fields in
      place and bump its version, as one uninterrupted step. */
    method Patch(body: PatchBody) returns (res: PatchResult)
      requires Valid()
      modifies this
      ensures Valid()
      ensures (res, records) == PatchStep(old(records), body)
    {
      if body.Malformed? {
        return InvalidRequest;
      }
      var idx := FindIndex(records, body.id);
      if idx.None? {
        return NotFound("Record with id " + body.id + " not found.");
      }
      var i := idx.value;
      if body.version.Some? && records[i].version != body.version.value {
        return Conflict(records[i]);
      }
      ghost var before := records;
      ghost var updated := ApplyUpdate(records[i], body.status, body.note);
      if body.status.Some? {
        records := records[i := records[i].(status := body.status.value)];
      }
      if body.note.Some? {
        records := records[i := records[i].(note := body.note)];
      }
      records := records[i := records[i].(version := records[i].version + 1)];
      res := Ok(records[i]);
      assert records[i] == updated;
      assert records == before[i := updated];
      PatchPreservesInvariant(before, body);
    }
  }

  /** On the seed: a write at version 1 succeeds and yields
      version 2; a second write still presenting version 1 is refused with the
      winner's record at version 2; reading page 1 of size 5 then shows 5 of 12. */
  method StaleWriteScenario() returns (first: PatchResult, second: PatchResult, page: GetResponse)
    ensures first.Ok? && first.record.status == Approved && first.record.version == 2
    ensures second.Conflict? && second.serverRecord == first.record && second.serverRecord.version == 2
    ensures page.Paginated? && page.totalCount == 12 && |page.records| == 5 && page.page == Int(1)
  {
    var store := new RecordStore();
    SeedFirstRecord();
    first := store.Patch(PatchRequest("1", Some(Approved), None, Some(1)));
    StaleSecondWriteConflicts(SeedRecords(), PatchRequest("1", Some(Approved), None, Some(1)),
      PatchRequest("1", Some(Flagged), None, Some(1)), 1);
    second := store.Patch(PatchRequest("1", Some(Flagged), None, Some(1)));
    PageSlice(store.records, 1, 5);
    page := store.Get(Some(Int(1)), Some(Int(5)));
  }
}
