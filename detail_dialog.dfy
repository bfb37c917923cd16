/** The review dialog's validation and submission
    (src/app/interview/components/RecordDetailDialog.tsx): a note is required
    for `flagged` and `needs_revision`, the note is trimmed before it is sent,
    and a blank note is sent as `undefined`. */
module DetailDialog {
  import opened RecordTypes
  import opened RecordsRoute
  import opened RecordsContext

  // ---------------------------------------------------------------- trimming

  /** The code points `String.prototype.trim` strips: ECMAScript's WhiteSpace
      (tab, vertical tab, form feed, space, no-break space, byte order mark and
      the Unicode space separators) and LineTerminator (LF, CR, LS, PS). */
  predicate IsWhitespace(c: char) {
    c == '\t' || c == '\n' || c == '\U{000B}' || c == '\U{000C}' || c == '\r' ||
    c == ' ' || c == '\U{00A0}' || c == '\U{1680}' ||
    ('\U{2000}' <= c <= '\U{200A}') ||
    c == '\U{2028}' || c == '\U{2029}' || c == '\U{202F}' || c == '\U{205F}' ||
    c == '\U{3000}' || c == '\U{FEFF}'
  }

  /** Drops leading whitespace: the result is the suffix of `s` that starts at
      its first non-whitespace character. */
  function TrimStart(s: string): (r: string)
    ensures |r| <= |s| && r == s[|s| - |r|..]
    ensures forall k :: 0 <= k < |s| - |r| ==> IsWhitespace(s[k])
    ensures r != [] ==> !IsWhitespace(r[0])
  {
    if s != [] && IsWhitespace(s[0]) then TrimStart(s[1..]) else s
  }

  /** Drops trailing whitespace: the result is the prefix of `s` that ends at
      its last non-whitespace character. */
  function TrimEnd(s: string): (r: string)
    ensures |r| <= |s| && r == s[..|r|]
    ensures forall k :: |r| <= k < |s| ==> IsWhitespace(s[k])
    ensures r != [] ==> !IsWhitespace(r[|r| - 1])
  {
    if s != [] && IsWhitespace(s[|s| - 1]) then TrimEnd(s[..|s| - 1]) else s
  }

  /** `s.trim()` */
  function Trim(s: string): (r: string)
    ensures |r| <= |s|
    ensures r != [] ==> !IsWhitespace(r[0]) && !IsWhitespace(r[|r| - 1])
  {
    TrimEnd(TrimStart(s))
  }

  /** Where the trimmed note starts inside the note. */
  function TrimOffset(s: string): nat {
    |s| - |TrimStart(s)|
  }

  /** The trimmed note is the slice of the note starting at `TrimOffset`. */
  lemma TrimIsSlice(s: string)
    ensures TrimOffset(s) + |Trim(s)| <= |s|
    ensures Trim(s) == s[TrimOffset(s)..TrimOffset(s) + |Trim(s)|]
  {
    var t := TrimStart(s);
    var r := TrimEnd(t);
    assert t == s[TrimOffset(s)..];
    assert r == t[..|r|];
  }

  /** Everything after the trimmed note is whitespace. */
  lemma TrimDropsTrailingWhitespace(s: string)
    ensures forall k :: TrimOffset(s) + |Trim(s)| <= k < |s| ==> IsWhitespace(s[k])
  {
    var t := TrimStart(s);
    var i := TrimOffset(s);
    var r := TrimEnd(t);
    assert Trim(s) == r;
    assert t == s[i..];
    forall k | i + |r| <= k < |s|
      ensures IsWhitespace(s[k])
    {
      assert s[k] == t[k - i];
    }
  }

  /** `trim` removes exactly the whitespace at both ends: the result is the
      contiguous middle of `s` (so inner whitespace is kept), everything cut
      off is whitespace, and the result neither starts nor ends with whitespace. */
  lemma TrimIsWhitespaceFreeMiddle(s: string)
    ensures var i := TrimOffset(s);
      && i + |Trim(s)| <= |s|
      && Trim(s) == s[i..i + |Trim(s)|]
      && (forall k :: 0 <= k < i ==> IsWhitespace(s[k]))
      && (forall k :: i + |Trim(s)| <= k < |s| ==> IsWhitespace(s[k]))
      && (Trim(s) != [] ==> !IsWhitespace(Trim(s)[0]) && !IsWhitespace(Trim(s)[|Trim(s)| - 1]))
  {
    TrimIsSlice(s);
    TrimDropsTrailingWhitespace(s);
    var t := TrimStart(s);
    var r := TrimEnd(t);
    if r != [] {
      assert r[0] == t[0];
    }
  }

  /** The trimmed note is empty exactly when the note is whitespace only. */
  lemma TrimEmptyIffBlank(s: string)
    ensures Trim(s) == [] <==> forall k :: 0 <= k < |s| ==> IsWhitespace(s[k])
  {
    TrimIsWhitespaceFreeMiddle(s);
  }

  // ---------------------------------------------------------------- validation

  /** `requiresNote` */
  predicate RequiresNote(status: RecordStatus) {
    status == Flagged || status == NeedsRevision
  }

  const NoteRequiredMessage: string := "A note is required for flagged or needs revision status."

  /** The validation error `handleSave` reports, or `None` when the save may proceed. */
  function ValidationError(status: RecordStatus, note: string): (r: Option<string>)
    ensures r.Some? ==> RequiresNote(status) && r.value == NoteRequiredMessage
  {
    if RequiresNote(status) && Trim(note) == "" then Some(NoteRequiredMessage) else None
  }

  /** `note.trim() || undefined`: the trimmed note, or absent when it is empty. */
  function SubmittedNote(note: string): (r: Option<string>)
    ensures r != Some("")
  {
    var t := Trim(note);
    if t == "" then None else Some(t)
  }

  /** Save is refused exactly for a note-requiring status with a blank note,
      and only `flagged` and `needs_revision` require a note. */
  lemma ValidationRejectsBlankRequiredNote(status: RecordStatus, note: string)
    ensures RequiresNote(status) <==> status in {Flagged, NeedsRevision}
    ensures ValidationError(status, note).Some? <==>
      RequiresNote(status) && forall k :: 0 <= k < |note| ==> IsWhitespace(note[k])
  {
    TrimEmptyIffBlank(note);
  }

  /** The submitted note is never the empty string: it is absent for a blank
      note and otherwise the trimmed, non-empty note. */
  lemma SubmittedNoteNeverEmpty(note: string)
    ensures SubmittedNote(note) != Some("")
    ensures SubmittedNote(note).None? <==> forall k :: 0 <= k < |note| ==> IsWhitespace(note[k])
    ensures SubmittedNote(note).Some? ==> SubmittedNote(note).value == Trim(note)
  {
    TrimEmptyIffBlank(note);
  }

  /** Through the context and the store, a save from the dialog sets the stored
      note to the trimmed note, or leaves it as it was when the note is blank:
      the dialog can never clear an existing note. */
  lemma DialogSaveNoteEffect(rs: seq<Record>, i: nat, status: RecordStatus, note: string)
    requires StoreInvariant(rs) && i < |rs|
    ensures var res := PatchStep(rs, UpdateRequest(rs[i].id, Some(status), SubmittedNote(note))).0;
      && res.Ok?
      && res.record.status == status
      && res.record.note == (if Trim(note) == "" then rs[i].note else Some(Trim(note)))
      && (rs[i].note.Some? && rs[i].note.value != "" ==> res.record.note.Some? && res.record.note.value != "")
  {
    var body := UpdateRequest(rs[i].id, Some(status), SubmittedNote(note));
    FindUnique(rs, i);
    PatchSuccess(rs, body, i);
  }

  /** A save that passes validation for `flagged` or `needs_revision` stores a
      note that is non-empty and has no surrounding whitespace. */
  lemma ValidatedSaveStoresRequiredNote(rs: seq<Record>, i: nat, status: RecordStatus, note: string)
    requires StoreInvariant(rs) && i < |rs|
    requires RequiresNote(status) && ValidationError(status, note).None?
    ensures var res := PatchStep(rs, UpdateRequest(rs[i].id, Some(status), SubmittedNote(note))).0;
      && res.Ok? && res.record.note.Some?
      && res.record.note.value != ""
      && !IsWhitespace(res.record.note.value[0])
      && !IsWhitespace(res.record.note.value[|res.record.note.value| - 1])
  {
    DialogSaveNoteEffect(rs, i, status, note);
    TrimIsWhitespaceFreeMiddle(note);
  }

  // ---------------------------------------------------------------- the dialog

  /** The dialog's form state for one record. `closeRequested` records that
      `onClose` has been called. */
  class RecordDetailDialog {
    const record: Record
    var status: RecordStatus
    var note: string
    var saving: bool
    var validationError: Option<string>
    var saveError: Option<string>
    var closeRequested: bool

    /** The form starts from the record's status and its note, or "" when it has none. */
    constructor (record: Record)
      ensures this.record == record
      ensures status == record.status && note == record.note.GetOr("")
      ensures !saving && validationError == None && saveError == None && !closeRequested
    {
      this.record := record;
      status := record.status;
      note := record.note.GetOr("");
      saving := false;
      validationError := None;
      saveError := None;
      closeRequested := false;
    }

    /** Choosing a status clears the validation error. */
    method SelectStatus(value: RecordStatus)
      modifies this
      ensures status == value && validationError == None
      ensures note == old(note) && saving == old(saving) && saveError == old(saveError)
      ensures closeRequested == old(closeRequested)
    {
      status := value;
      validationError := None;
    }

    /** Editing the note clears the validation error. */
    method EditNote(value: string)
      modifies this
      ensures note == value && validationError == None
      ensures status == old(status) && saving == old(saving) && saveError == old(saveError)
      ensures closeRequested == old(closeRequested)
    {
      note := value;
      validationError := None;
    }

    /** `handleSave`: a blank note for a note-requiring status is refused before
        any update call; otherwise the context's update is called with the
        status and the submitted note, the dialog asks to close on success and
        keeps the error message on failure. */
    method HandleSave(ctx: RecordsProvider, response: HttpOutcome<Record>, timestamp: string)
      modifies this, ctx
      ensures status == old(status) && note == old(note)
      ensures validationError == ValidationError(old(status), old(note))
      ensures validationError.Some? ==>
        && saveError == None && closeRequested == old(closeRequested) && saving == old(saving)
        && ctx.data == old(ctx.data) && ctx.log == old(ctx.log) && ctx.err == old(ctx.err)
      ensures validationError.None? ==>
        && !saving
        && ctx.err == UpdateFailure(response)
        && saveError == ctx.err
        && closeRequested == (old(closeRequested) || ctx.err.None?)
        && ctx.data == (if ctx.err.None? then ReplaceById(old(ctx.data), response.body) else old(ctx.data))
        && ctx.log == (if ctx.err.None?
                       then AppendEntry(old(ctx.log), HistoryEntryFor(old(ctx.data), record.id, Some(old(status)), SubmittedNote(old(note)), timestamp))
                       else old(ctx.log))
    {
      validationError := None;
      saveError := None;
      var invalid := ValidationError(status, note);
      if invalid.Some? {
        validationError := invalid;
        return;
      }
      saving := true;
      var outcome := ctx.UpdateRecord(record.id, Some(status), SubmittedNote(note), response, timestamp);
      if outcome.Resolved? {
        closeRequested := true;
      } else {
        saveError := Some(outcome.message);
      }
      saving := false;
    }
  }
}
