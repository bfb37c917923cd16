# Specimen review records: a verified model

This project models the logic of a small specimen-review application. The
pieces modelled are:

- the in-memory records API (`GET` and `PATCH /api/mock/records`);
- the client session state built from it;
- the client-side filter and the status counts;
- the review dialog's note validation.

## What is modelled

- **Records API** (`records_route.dfy`, module `RecordsRoute`).
  - The module-level array becomes the class `RecordStore`, holding a `seq<Record>` that starts as the twelve seed records.
  - `GET` is the pure function `Page`.
    - With neither `page` nor `limit` it returns the whole collection.
    - With either one it applies the defaults 1 and 10 and rejects a number below 1.
    - Otherwise it slices `[(page-1)*limit, page*limit)` with JavaScript's clamping.
    - `totalCount` and the per-status counts are taken over the whole collection.
    - A parameter that `parseInt` turns into `NaN` passes the `< 1` check and yields an empty slice. This is kept as a value of `ParsedInt`.
  - `PATCH` is the method `RecordStore.Patch`. It updates the fields of the found record one after another, exactly as the handler does, and is proved equal to the specification function `PatchStep`.
    - An unknown id gives `NotFound`.
    - A supplied version that differs from the current one gives `Conflict` with the current record.
    - Otherwise `status` is set if supplied and `note` is set if not `undefined`, even to `""`.
    - The version then goes up by exactly one.
    - An unreadable body gives `InvalidRequest`.
  - The optimistic-concurrency guarantee is `StaleSecondWriteConflicts`: of two writes presenting the same version `n`, applied one after the other, at most one succeeds. If the first succeeds, the second gets `Conflict` with the winner's record at version `n + 1`. The handler has no `await` between finding the record and changing it, so each `PATCH` is one atomic step.
- **Filter and counts** (`record_filter.dfy`, `record_summary.dfy`).
  - The status filter is a pure function. It returns the input for `'all'` and otherwise an order-preserving subsequence.
  - `useStatusCounts` is a method whose `for` loop adds one per record.
  - The summary's `reduce` fold is a function over a status-to-count `map`.
  - Both counts are proved equal to the length of the matching filter result, so they agree with each other.
- **Client session state** (`records_context.dfy`, class `RecordsProvider`).
  - Its fields are `data`, `log` and `err`.
  - `LoadData`, `UpdateRecord` and `ClearHistory` take what `fetch` produced as a parameter, and the history timestamp as a parameter.
  - The context sends no `version`, so its writes always take the store's unconditional path (`ContextWritesBypassVersionCheck`).
- **Review dialog** (`detail_dialog.dfy`, class `RecordDetailDialog`).
  - A note is required for `flagged` and `needs_revision`.
  - `trim` strips ECMAScript's WhiteSpace and LineTerminator code points.
  - A blank note is submitted as absent. Together with the store's rule, the dialog therefore never clears a stored note (`DialogSaveNoteEffect`).

What the code does, in the places where one might expect otherwise:

- The route has no status filter, and `totalCount` is always the full collection length.
- History entries are created by the client context, not by the store. They compare against the locally known status, not the server's previous status.
- The required-note rule is enforced only in the dialog; the store accepts any note.
- `PATCH` can store `""` as a note, but the dialog never sends it.

## Model

| member | source | states |
|---|---|---|
| RecordTypes.FindIndex | src/app/api/mock/records/route.ts:180 | `find` by id: the result is the first position holding the id, and it is absent exactly when no record has the id |
| RecordTypes.Find | src/app/interview/context/RecordsContext.tsx:85 | the record found has the id and is the first record in the list holding it; it is present exactly when some record has the id |
| RecordTypes.FindUnique | src/app/api/mock/records/route.ts:180 | when ids are unique, `find` returns the one record at that id |
| RecordsRoute.SeedSatisfiesInvariant | src/app/api/mock/records/route.ts:6-111 | the seed holds distinct ids and every record starts at version 1 |
| RecordsRoute.RecordStore.constructor | src/app/api/mock/records/route.ts:6 | the store starts with the seed and satisfies its invariant |
| RecordsRoute.Page | src/app/api/mock/records/route.ts:126-166 | `GET` as a function of the records and the parsed parameters, defined by cases; characterised by PageWithoutParamsIsEverything, PageRejectsNonPositive, PageSlice, PageCountsCoverAllRecords and PageNaNIsEmpty |
| RecordsRoute.PageWithoutParamsIsEverything | src/app/api/mock/records/route.ts:131-134 | with neither parameter the whole collection comes back unchanged and in order |
| RecordsRoute.PageRejectsNonPositive | src/app/api/mock/records/route.ts:136-145 | the 400 error occurs exactly when a parameter is present and an effective page or limit is a number below 1 |
| RecordsRoute.PageSlice | src/app/api/mock/records/route.ts:147-166 | the slice is `rs[(page-1)*limit .. min(len, page*limit))`, at most `limit` long, empty past the end; `totalCount` is the full length; page and limit are echoed |
| RecordsRoute.PageCountsCoverAllRecords | src/app/api/mock/records/route.ts:152-158 | each status count is that status's filter length over all records, and the four sum to `totalCount` |
| RecordsRoute.PageNaNIsEmpty | src/app/api/mock/records/route.ts:136-150 | a `NaN` parameter passes validation and gives an empty slice |
| RecordsRoute.RecordStore.Get | src/app/api/mock/records/route.ts:126-167 | the handler's response is `Page` of the current records; nothing changes |
| RecordsRoute.ApplyUpdate | src/app/api/mock/records/route.ts:200-205 | the field updates of `PATCH`: status only when supplied, note whenever supplied, version plus one; characterised by PatchSuccess |
| RecordsRoute.PatchStep | src/app/api/mock/records/route.ts:180-207 | `PATCH` as a function from the records and the body to the response and the new records (find, version check, update); characterised by PatchUnknownId, PatchStaleVersion, PatchSuccess, PatchWithoutVersionIsUnconditional, PatchPreservesInvariant and StaleSecondWriteConflicts |
| RecordsRoute.PatchUnknownId | src/app/api/mock/records/route.ts:180-186 | `NotFound` exactly when no record has the id, and then no record changes |
| RecordsRoute.PatchStaleVersion | src/app/api/mock/records/route.ts:188-198 | `Conflict` exactly when a supplied version differs from the found record's; it carries that record and nothing changes |
| RecordsRoute.PatchSuccess | src/app/api/mock/records/route.ts:200-207 | on success: version + 1, status only if supplied, note whenever supplied (even `""`), id, name and description kept, other records and order untouched |
| RecordsRoute.PatchWithoutVersionIsUnconditional | src/app/api/mock/records/route.ts:189 | with no version the update succeeds exactly when the id exists |
| RecordsRoute.PatchPreservesInvariant | src/app/interview/types/index.ts:14 | every outcome keeps ids in place, never lowers a version, raises a changed record's version by exactly 1, and keeps ids unique and versions positive |
| RecordsRoute.StaleSecondWriteConflicts | src/app/api/mock/records/route.ts:180-205 | two sequential writes with the same expected version N never both succeed; after a success the second gets `Conflict` with the winner's record at version N+1 |
| RecordsRoute.RecordStore.Patch | src/app/api/mock/records/route.ts:170-211 | the in-place find, check and update return and leave exactly what `PatchStep` specifies, and keep the store invariant |
| RecordsRoute.StaleWriteScenario | src/app/api/mock/records/route.ts:180-205 | on the seed, a write at version 1 yields version 2, a second write at version 1 conflicts with the version-2 record, and page 1 of size 5 shows 5 of 12 |
| RecordFilter.FilterRecords | src/app/interview/hooks/useRecordFilter.ts:23-28 | the filtered list contains exactly the records that match the filter and is no longer than the input |
| RecordFilter.FilterAllIsIdentity | src/app/interview/hooks/useRecordFilter.ts:24-26 | `'all'` returns the input unchanged |
| RecordFilter.FilterInitialAndEmpty | src/app/interview/hooks/useRecordFilter.ts:21 | the initial filter shows the whole list; an empty list filters to an empty list |
| RecordFilter.FilterAppend | src/app/interview/hooks/useRecordFilter.ts:27 | filtering distributes over concatenation, so the original order is kept |
| RecordFilter.FilterIsSubsequence | src/app/interview/hooks/useRecordFilter.ts:27 | the filtered list is a subsequence of the input |
| RecordFilter.CountsByFilter | src/app/api/mock/records/route.ts:153-158 | the per-status counts: the count for every status is the length of that status's filter result; characterised further by CountsByFilterTotal |
| RecordFilter.CountsByFilterTotal | src/app/interview/hooks/useRecordFilter.ts:53-62 | the four per-status filter lengths sum to the number of records |
| RecordFilter.UseStatusCounts | src/app/interview/hooks/useRecordFilter.ts:51-66 | the loop's count for every status equals the length of that status's filter result, and the counts sum to the number of records |
| RecordSummary.CountOr0 | src/app/interview/components/RecordSummary.tsx:13 | `acc[status] ?? 0`: the stored count, or 0 for an absent key; characterised by FoldCountsKeys |
| RecordSummary.Step | src/app/interview/components/RecordSummary.tsx:12-15 | the reducer: one more for the record's status, every other key unchanged; characterised by FoldCountsMatchFilter |
| RecordSummary.FoldCounts | src/app/interview/components/RecordSummary.tsx:11-17 | the `reduce` fold from `{}`, last record folded in last; characterised by FoldCountsMatchFilter, FoldCountsKeys and FoldAgreesWithStatusCounts |
| RecordSummary.FoldCountsMatchFilter | src/app/interview/components/RecordSummary.tsx:11-17 | the fold's count for each status equals the number of records with that status |
| RecordSummary.FoldCountsKeys | src/app/interview/components/RecordSummary.tsx:52 | a status is a key of the fold exactly when some record has it; an absent status reads as 0 |
| RecordSummary.FoldAgreesWithStatusCounts | src/app/interview/components/RecordSummary.tsx:11-17 | the fold and `useStatusCounts` report the same count for every status |
| RecordSummary.SummaryTiles | src/app/interview/components/RecordSummary.tsx:51-52 | there is one tile per listed status, in the listed order |
| RecordSummary.SummaryTilesCorrect | src/app/interview/components/RecordSummary.tsx:51-52 | each tile shows its status's record count, and the tiles sum to the number of records |
| RecordSummary.StatusesListEachOnce | src/app/interview/components/RecordSummary.tsx:18-23 | the summary lists pending, approved, flagged and needs_revision once each, and no status is missing |
| RecordsContext.RecordsProvider.constructor | src/app/interview/context/RecordsContext.tsx:44-47 | the context starts with no records, an empty log and no error |
| RecordsContext.RecordsProvider.LoadData | src/app/interview/context/RecordsContext.tsx:49-65 | on success the list is replaced wholesale; on failure it is kept and the error message is recorded; the log is untouched |
| RecordsContext.RecordsProvider.UpdateRecord | src/app/interview/context/RecordsContext.tsx:71-101 | on success the record with the returned id is replaced and the conditional history entry is appended; on failure list and log are kept, the error is set and rethrown |
| RecordsContext.RecordsProvider.ClearHistory | src/app/interview/context/RecordsContext.tsx:107-109 | the log becomes empty; records and error are untouched |
| RecordsContext.ReplaceById | src/app/interview/context/RecordsContext.tsx:83 | `prev.map` replacing the records with the returned id; characterised by ReplaceByIdReplacesOne and ReplaceMirrorsStore |
| RecordsContext.HistoryEntryFor | src/app/interview/context/RecordsContext.tsx:85-94 | the history entry an update appends, if any; characterised by HistoryEntryCondition |
| RecordsContext.ReplaceByIdReplacesOne | src/app/interview/context/RecordsContext.tsx:83 | the replacement keeps length and ids; with unique ids exactly the one matching position changes, or none |
| RecordsContext.HistoryEntryCondition | src/app/interview/context/RecordsContext.tsx:85-94 | an entry is appended exactly when the record is known locally, a status was requested, and it differs from the local status; the entry holds the old status, the requested status and note, and the timestamp |
| RecordsContext.ContextWritesBypassVersionCheck | src/app/interview/context/RecordsContext.tsx:77 | the context's writes carry no version, so the store never answers them with `Conflict` and applies them whenever the id exists |
| RecordsContext.ReplaceMirrorsStore | src/app/interview/context/RecordsContext.tsx:82-83 | if the client list equals the store's, replacing by the returned record makes it equal to the store's new list |
| RecordsContext.ClearAfterThreeTransitions | src/app/interview/context/RecordsContext.tsx:107-109 | three status changes log three entries, and clearing then leaves an empty log with the updated records |
| DetailDialog.TrimStart | src/app/interview/components/RecordDetailDialog.tsx:64 | the result is the suffix of the input that starts at the first non-whitespace character; only whitespace is dropped |
| DetailDialog.TrimEnd | src/app/interview/components/RecordDetailDialog.tsx:64 | the result is the prefix of the input that ends at the last non-whitespace character; only whitespace is dropped |
| DetailDialog.IsWhitespace | src/app/interview/components/RecordDetailDialog.tsx:64 | the code points `trim` strips: ECMAScript WhiteSpace and LineTerminator; used by TrimStart and TrimEnd |
| DetailDialog.Trim | src/app/interview/components/RecordDetailDialog.tsx:64 | `note.trim()`; characterised by TrimIsWhitespaceFreeMiddle and TrimEmptyIffBlank |
| DetailDialog.TrimIsWhitespaceFreeMiddle | src/app/interview/components/RecordDetailDialog.tsx:71 | the trimmed note is a contiguous middle part of the note, so inner whitespace is kept; it has no whitespace at either end, and everything removed is whitespace |
| DetailDialog.TrimEmptyIffBlank | src/app/interview/components/RecordDetailDialog.tsx:64 | the trimmed note is empty exactly when the note is whitespace only |
| DetailDialog.RequiresNote | src/app/interview/components/RecordDetailDialog.tsx:56 | `requiresNote`: flagged or needs_revision; characterised by ValidationRejectsBlankRequiredNote |
| DetailDialog.ValidationError | src/app/interview/components/RecordDetailDialog.tsx:63-67 | the validation message for a required blank note, else none; characterised by ValidationRejectsBlankRequiredNote |
| DetailDialog.SubmittedNote | src/app/interview/components/RecordDetailDialog.tsx:71 | the trimmed note, or absent when it is empty; characterised by SubmittedNoteNeverEmpty, DialogSaveNoteEffect and ValidatedSaveStoresRequiredNote |
| DetailDialog.ValidationRejectsBlankRequiredNote | src/app/interview/components/RecordDetailDialog.tsx:56-67 | a note is required exactly for flagged and needs_revision; save is refused exactly when one is required and the note is whitespace only |
| DetailDialog.SubmittedNoteNeverEmpty | src/app/interview/components/RecordDetailDialog.tsx:71 | the submitted note is absent exactly for a blank note and is otherwise the non-empty trimmed note, never `""` |
| DetailDialog.DialogSaveNoteEffect | src/app/interview/components/RecordDetailDialog.tsx:71 | through the store, a save sets the status; it sets the note to the trimmed note, or keeps the stored note when the note is blank, so an existing note is never cleared |
| DetailDialog.ValidatedSaveStoresRequiredNote | src/app/interview/components/RecordDetailDialog.tsx:63-71 | a validated save for flagged or needs_revision stores a non-empty note without surrounding whitespace |
| DetailDialog.RecordDetailDialog.constructor | src/app/interview/components/RecordDetailDialog.tsx:43-47 | the form starts with the record's status and its note, or `""` when it has none |
| DetailDialog.RecordDetailDialog.SelectStatus | src/app/interview/components/RecordDetailDialog.tsx:98-101 | choosing a status sets it and clears the validation error |
| DetailDialog.RecordDetailDialog.EditNote | src/app/interview/components/RecordDetailDialog.tsx:129-132 | editing the note sets it and clears the validation error |
| DetailDialog.RecordDetailDialog.HandleSave | src/app/interview/components/RecordDetailDialog.tsx:58-78 | a blank required note sets the validation error with no update call; otherwise the context update runs with the trimmed or absent note; on success `onClose` is requested, on failure the error message is kept |

## Left out

- HTTP plumbing. Request parsing, `NextResponse` and status codes are not modelled. Outcomes are datatype constructors, and an unreadable body is the single `Malformed` case.
- Response texts. The 409 body's `error` and `message` strings are left out; `Conflict` carries only the server record.
- `parseInt`. The text of `page` and `limit` is taken as already parsed: `None` means absent or empty, otherwise an integer or `NaN`.
- Number precision. Integers are unbounded, so JavaScript number rounding above 2^53 (for `page * limit` or a version) is not modelled. Neither is `parseInt` overflowing to `Infinity` on a parameter of more than about 309 digits, which changes the result: with `page=1` JavaScript computes `0 * Infinity = NaN` and returns an empty page, where the model's `Int(n)` returns the records from the start.
- Request-body typing. `PATCH` accepts any JSON value for `status`, `note` and `version`. The model only represents the four statuses, strings, integers and absent fields; an empty `status` string is the absent case. The route stores any other non-empty `status` string as it is; after such a write the program's four counts no longer sum to the number of records, and `useStatusCounts` gains a fifth key holding `NaN`. So PageCountsCoverAllRecords, CountsByFilterTotal, UseStatusCounts and SummaryTilesCorrect hold in the program only while every stored status is one of the four.
- Concurrency as such. Each `PATCH` runs to completion before another handler can observe the array, so the store is modelled as a sequence of atomic steps.
- Network calls. `fetch`, the JSON decoding of responses and the `busy`/loading flag are left out. What `fetch` produced is a parameter (`HttpOutcome`); an error thrown without a message is not distinguished.
- React hooks. `useState`, `useMemo`, `useEffect` and re-render timing are left out. The `data` read by `doUpdate` is the list at the time of the call.
- Timestamps. `new Date().toISOString()` is a parameter of the history append.
- `src/app/interview/services/recordsApi.ts` is not part of this model.
- Presentation. Components and text that only render (cards, lists, history log, filter dropdown, styles) are not modelled.
