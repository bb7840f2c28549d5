/**
 * The evidence upload component: a capped list of selected files, each
 * going from pending to uploading to success or error.
 *
 * JavaScript compares list entries by object identity, so every entry
 * carries `ref`, the identity of the object that holds it; copying an
 * entry with the spread operator creates a new identity.
 */
module FileUpload {
  import opened Wrappers
  import opened Text
  import opened Security
  import Seqs
  import Audit

  datatype UploadStatus = Pending | Uploading | Success | Error

  datatype FileEntry = FileEntry(ref: nat, file: FileInfo, status: UploadStatus, error: Option<string>)

  const DefaultMaxFiles := 5

  /** The extension labels the type message lists, one per allowed type. */
  const AllowedExtensionsText := "PDF, DOCX, PNG, JPG, JPG"

  const TypeMessage := "ประเภทไฟล์ไม่รองรับ อนุญาตเฉพาะ: " + AllowedExtensionsText

  function SizeMessage(): string {
    "ขนาดไฟล์เกิน " + IntToString(MaxFileSize / 1024 / 1024) + "MB"
  }

  /** `validateFile`: the type is checked before the size. */
  function ValidateFile(file: FileInfo): (r: Option<string>)
    ensures r.None? <==> ValidateFileType(file, AllowedEvidenceTypes) && ValidateFileSize(file, MaxFileSize)
    ensures !ValidateFileType(file, AllowedEvidenceTypes) ==> r == Some(TypeMessage)
    ensures ValidateFileType(file, AllowedEvidenceTypes) && !ValidateFileSize(file, MaxFileSize) ==> r == Some(SizeMessage())
  {
    if !ValidateFileType(file, AllowedEvidenceTypes) then Some(TypeMessage)
    else if !ValidateFileSize(file, MaxFileSize) then Some(SizeMessage())
    else None
  }

  lemma SizeMessageText()
    ensures SizeMessage() == "ขนาดไฟล์เกิน 10MB"
  {
  }

  /** The accepted files among `xs`, renamed, in selection order. */
  function Accepted(xs: seq<FileInfo>): (r: seq<FileInfo>)
    ensures |r| <= |xs|
    ensures forall i | 0 <= i < |r| :: AllSafe(r[i].name) && |r[i].name| <= MaxFilenameLength
  {
    if xs == [] then []
    else
      var last := xs[|xs| - 1];
      var init := Accepted(xs[..|xs| - 1]);
      if ValidateFile(last).None? then
        SanitizeFilenameProperties(last.name);
        init + [last.(name := SanitizeFilename(last.name))]
      else init
  }

  /** One error message for each refused file among `xs`, in selection order. */
  function Rejections(xs: seq<FileInfo>): seq<string> {
    if xs == [] then []
    else
      var last := xs[|xs| - 1];
      var init := Rejections(xs[..|xs| - 1]);
      match ValidateFile(last)
      case Some(e) => init + [e]
      case None => init
  }

  /** Every examined file is either accepted or refused with one message. */
  lemma {:induction false} AcceptedPlusRejected(xs: seq<FileInfo>)
    ensures |Accepted(xs)| + |Rejections(xs)| == |xs|
  {
    if xs != [] {
      AcceptedPlusRejected(xs[..|xs| - 1]);
    }
  }

  predicate PassesChecks(f: FileInfo) { ValidateFile(f).None? }
  predicate FailsChecks(f: FileInfo) { ValidateFile(f).Some? }

  /** A file as it is added to the list: under its sanitized name. */
  function Renamed(f: FileInfo): FileInfo {
    f.(name := SanitizeFilename(f.name))
  }

  /**
   * The accepted files are exactly the files that pass both checks, in
   * selection order, each renamed; the refusals are, in the same order,
   * the messages of the files that fail, one each.
   */
  lemma {:induction false} SelectionSplit(xs: seq<FileInfo>)
    ensures var passed := Seqs.Filter(xs, PassesChecks);
            |Accepted(xs)| == |passed| &&
            forall i | 0 <= i < |passed| :: Accepted(xs)[i] == Renamed(passed[i])
    ensures var failed := Seqs.Filter(xs, FailsChecks);
            |Rejections(xs)| == |failed| &&
            forall i | 0 <= i < |failed| :: ValidateFile(failed[i]) == Some(Rejections(xs)[i])
  {
    if xs != [] {
      var init, last := xs[..|xs| - 1], xs[|xs| - 1];
      assert xs == init + [last];
      SelectionSplit(init);
      Seqs.FilterAppend(init, [last], PassesChecks);
      Seqs.FilterAppend(init, [last], FailsChecks);
      assert Seqs.Filter([last], PassesChecks) == if PassesChecks(last) then [last] else [];
      assert Seqs.Filter([last], FailsChecks) == if FailsChecks(last) then [last] else [];
    }
  }

  /** A file is among the accepted ones exactly when it is a selected file that passes, renamed. */
  lemma AcceptedExactly(xs: seq<FileInfo>, x: FileInfo)
    ensures x in Accepted(xs) <==> exists i | 0 <= i < |xs| :: PassesChecks(xs[i]) && x == Renamed(xs[i])
  {
    SelectionSplit(xs);
    Seqs.MappedFilterMembership(xs, PassesChecks, Renamed, Accepted(xs), x);
  }

  /** New pending entries for `fs`, with identities `start`, `start + 1`, .... */
  function PendingEntries(fs: seq<FileInfo>, start: nat): (r: seq<FileEntry>)
    ensures |r| == |fs|
    ensures forall i | 0 <= i < |fs| :: r[i] == FileEntry(start + i, fs[i], Pending, None)
  {
    seq(|fs|, i requires 0 <= i < |fs| => FileEntry(start + i, fs[i], Pending, None))
  }

  /** `files.map(f => f === entry ? { ...f, status: 'uploading' } : f)`, the copy getting identity `copy`. */
  function MarkUploading(files: seq<FileEntry>, ref: nat, copy: nat): (r: seq<FileEntry>)
    ensures |r| == |files|
    ensures forall i | 0 <= i < |files| ::
              r[i] == if files[i].ref == ref then files[i].(ref := copy, status := Uploading) else files[i]
  {
    seq(|files|, i requires 0 <= i < |files| =>
      if files[i].ref == ref then files[i].(ref := copy, status := Uploading) else files[i])
  }

  /** What the upload service answered; a thrown error is a refusal carrying its message. */
  datatype UploadResponse = Uploaded(fileUrl: string, fileId: string) | Refused(error: Option<string>)

  /** `response.error || 'Upload failed'`. */
  function FailureMessage(error: Option<string>): (m: string)
    ensures m != ""
  {
    if error.None? || error.value == "" then "Upload failed" else error.value
  }

  /** The callback the component fires after an upload. */
  datatype UploadEvent = UploadSucceeded(fileUrl: string, fileId: string) | UploadFailed(message: string)

  /** The entry with identity `ref` as the response leaves it: success, or error with its message. */
  function Settled(f: FileEntry, response: UploadResponse): (r: FileEntry)
    ensures r.ref == f.ref && r.file == f.file
    ensures response.Uploaded? ==> r.status == Success
    ensures response.Refused? ==> r.status == Error && r.error == Some(FailureMessage(response.error))
  {
    match response
    case Uploaded(_, _) => f.(status := Success)
    case Refused(e) => f.(status := Error, error := Some(FailureMessage(e)))
  }

  /** The entries identical to `ref` settled by the response; all others unchanged. */
  function Settle(files: seq<FileEntry>, ref: nat, response: UploadResponse): (r: seq<FileEntry>)
    ensures |r| == |files|
    ensures forall i | 0 <= i < |files| :: r[i] == if files[i].ref == ref then Settled(files[i], response) else files[i]
  {
    seq(|files|, i requires 0 <= i < |files| => if files[i].ref == ref then Settled(files[i], response) else files[i])
  }

  function ResponseEvent(response: UploadResponse): UploadEvent {
    match response
    case Uploaded(url, id) => UploadSucceeded(url, id)
    case Refused(e) => UploadFailed(FailureMessage(e))
  }

  /** The audit record an upload writes. */
  function UploadLogOptions(entry: FileEntry, response: UploadResponse): Audit.LogOptions {
    match response
    case Uploaded(_, id) =>
      Audit.LogOptions(Some("evidence"), Some(id),
        Some(map["fileName" := entry.file.name, "fileSize" := IntToString(entry.file.size), "fileType" := entry.file.mimeType]),
        Some(true))
    case Refused(e) =>
      Audit.LogOptions(Some("evidence"), None, Some(map["error" := FailureMessage(e)]), Some(false))
  }

  predicate DistinctRefs(files: seq<FileEntry>) {
    forall i, j | 0 <= i < j < |files| :: files[i].ref != files[j].ref
  }

  /** New entries get identities from `start` on, so appending them keeps every identity distinct. */
  lemma AppendPendingKeepsRefs(files: seq<FileEntry>, fs: seq<FileInfo>, start: nat)
    requires DistinctRefs(files) && forall i | 0 <= i < |files| :: files[i].ref < start
    ensures DistinctRefs(files + PendingEntries(fs, start))
    ensures var r := files + PendingEntries(fs, start);
            forall i | 0 <= i < |r| :: r[i].ref < start + |fs|
  {
    var entries := PendingEntries(fs, start);
    var r := files + entries;
    forall i | 0 <= i < |r|
      ensures r[i].ref < start + |fs|
    {
      if i >= |files| {
        assert r[i] == entries[i - |files|];
      }
    }
    forall i, j | 0 <= i < j < |r|
      ensures r[i].ref != r[j].ref
    {
      if j >= |files| {
        assert r[j] == entries[j - |files|];
        if i >= |files| {
          assert r[i] == entries[i - |files|];
        }
      }
    }
  }

  class SecureFileUpload {
    var files: seq<FileEntry>
    /** The identity the next new entry object receives. */
    var nextRef: nat
    const maxFiles: nat

    /** Never more than `maxFiles` entries, and every entry its own object. */
    predicate Valid()
      reads this
    {
      |files| <= maxFiles && DistinctRefs(files) &&
      forall i | 0 <= i < |files| :: files[i].ref < nextRef
    }

    constructor(maxFilesProp: Option<nat>)
      ensures files == [] && maxFiles == maxFilesProp.GetOr(DefaultMaxFiles)
      ensures Valid()
    {
      files := [];
      nextRef := 0;
      maxFiles := maxFilesProp.GetOr(DefaultMaxFiles);
    }

    /** The files of a selection that are examined: only as many as there are free slots. */
    function Examined(selected: seq<FileInfo>): (r: seq<FileInfo>)
      reads this
      ensures Valid() ==> r == if |selected| <= maxFiles - |files| then selected else selected[..maxFiles - |files|]
      ensures Valid() ==> |r| <= maxFiles - |files|
    {
      if Valid() then Seqs.SlicePrefix(selected, maxFiles - |files|); Seqs.Slice(selected, 0, maxFiles - |files|)
      else Seqs.Slice(selected, 0, maxFiles - |files|)
    }

    /**
     * `handleFileSelect(selectedFiles)`; returns the messages passed to
     * `onUploadError`, one per refused file.
     */
    method HandleFileSelect(selection: Option<seq<FileInfo>>) returns (errors: seq<string>)
      requires Valid()
      modifies this
      ensures Valid()
      ensures selection.None? ==> files == old(files) && nextRef == old(nextRef) && errors == []
      ensures selection.Some? ==>
        var examined := old(Examined(selection.value));
        files == old(files) + PendingEntries(Accepted(examined), old(nextRef)) &&
        nextRef == old(nextRef) + |Accepted(examined)| &&
        errors == Rejections(examined)
    {
      if selection.None? {
        return [];
      }
      var examined := Examined(selection.value);
      var added: seq<FileInfo> := [];
      errors := [];
      for i := 0 to |examined|
        invariant added == Accepted(examined[..i])
        invariant errors == Rejections(examined[..i])
        invariant files == old(files) && nextRef == old(nextRef)
      {
        assert examined[..i + 1][..i] == examined[..i];
        var problem := ValidateFile(examined[i]);
        if problem.None? {
          SanitizeFilenameProperties(examined[i].name);
          added := added + [examined[i].(name := SanitizeFilename(examined[i].name))];
        } else {
          errors := errors + [problem.value];
        }
      }
      assert examined[..|examined|] == examined;
      assert |added| <= |examined| <= maxFiles - |files|;
      AppendPendingKeepsRefs(files, added, nextRef);
      files := files + PendingEntries(added, nextRef);
      nextRef := nextRef + |added|;
    }

    /**
     * The first step of `handleUpload`: the entry is replaced by a copy, a
     * new object, with status uploading. Returns the copy's identity.
     */
    method BeginUpload(ref: nat) returns (copy: nat)
      requires Valid()
      modifies this
      ensures Valid()
      ensures copy == old(nextRef) && nextRef == old(nextRef) + 1
      ensures files == MarkUploading(old(files), ref, copy)
    {
      copy := nextRef;
      files := MarkUploading(files, ref, copy);
      nextRef := nextRef + 1;
    }

    /**
     * `handleUpload(entry)` as written: the response is applied to the
     * entries identical to the ORIGINAL object, which the first step has
     * already replaced.
     */
    method HandleUploadAsWritten(ref: nat, response: UploadResponse, userId: string, userRole: string,
                                 audit: Audit.AuditTrail, now: int) returns (event: UploadEvent)
      requires Valid()
      modifies this, audit
      ensures Valid()
      ensures files == Settle(MarkUploading(old(files), ref, old(nextRef)), ref, response)
      ensures event == ResponseEvent(response)
      ensures audit.auditLogs == old(audit.auditLogs) +
              [Audit.MakeLog(userId, userRole, Audit.FileUpload, UploadLogOptions(old(FindEntry(ref)), response), now)]
      ensures audit.persisted == Audit.KeepNewest(old(audit.persisted) +
              [Audit.MakeLog(userId, userRole, Audit.FileUpload, UploadLogOptions(old(FindEntry(ref)), response), now)])
    {
      var entry := FindEntry(ref);
      var copy := BeginUpload(ref);
      files := Settle(files, ref, response);
      LogUpload(entry, response, userId, userRole, audit, now);
      event := ResponseEvent(response);
    }

    /** `handleUpload(entry)` with the response applied to the entry's current copy. */
    method HandleUpload(ref: nat, response: UploadResponse, userId: string, userRole: string,
                        audit: Audit.AuditTrail, now: int) returns (event: UploadEvent)
      requires Valid()
      modifies this, audit
      ensures Valid()
      ensures files == Settle(MarkUploading(old(files), ref, old(nextRef)), old(nextRef), response)
      ensures event == ResponseEvent(response)
      ensures audit.auditLogs == old(audit.auditLogs) +
              [Audit.MakeLog(userId, userRole, Audit.FileUpload, UploadLogOptions(old(FindEntry(ref)), response), now)]
      ensures audit.persisted == Audit.KeepNewest(old(audit.persisted) +
              [Audit.MakeLog(userId, userRole, Audit.FileUpload, UploadLogOptions(old(FindEntry(ref)), response), now)])
    {
      var entry := FindEntry(ref);
      var copy := BeginUpload(ref);
      files := Settle(files, copy, response);
      LogUpload(entry, response, userId, userRole, audit, now);
      event := ResponseEvent(response);
    }

    /** The entry with identity `ref`, for the audit details. */
    function FindEntry(ref: nat): FileEntry
      reads this
    {
      var matching := Seqs.Filter(files, (f: FileEntry) => f.ref == ref);
      if matching == [] then FileEntry(ref, FileInfo("", "", 0), Pending, None) else matching[0]
    }

    /** `handleRemove(entry)`: every entry identical to `entry` is dropped. */
    method HandleRemove(ref: nat)
      requires Valid()
      modifies this
      ensures Valid()
      ensures files == Seqs.Filter(old(files), (f: FileEntry) => f.ref != ref)
      ensures nextRef == old(nextRef)
    {
      var kept := Seqs.Filter(files, (f: FileEntry) => f.ref != ref);
      FilterKeepsDistinct(files, ref);
      files := kept;
    }
  }

  /**
   * As written, the response never reaches the list: the entry being
   * uploaded has already been replaced by its copy, so the list is left
   * with the entry uploading, whatever the service answered.
   */
  lemma UploadNeverSettlesAsWritten(files: seq<FileEntry>, k: nat, nextRef: nat, response: UploadResponse)
    requires k < |files|
    requires forall i | 0 <= i < |files| :: files[i].ref < nextRef
    ensures var after := Settle(MarkUploading(files, files[k].ref, nextRef), files[k].ref, response);
            after == MarkUploading(files, files[k].ref, nextRef) && after[k].status == Uploading
  {
    var marked := MarkUploading(files, files[k].ref, nextRef);
    assert forall i | 0 <= i < |marked| :: marked[i].ref != files[k].ref;
  }

  /**
   * Applied to the copy, the response settles exactly the uploaded entry:
   * success on an upload, error with its message on a refusal.
   */
  lemma UploadSettlesCopy(files: seq<FileEntry>, k: nat, nextRef: nat, response: UploadResponse)
    requires k < |files| && DistinctRefs(files)
    requires forall i | 0 <= i < |files| :: files[i].ref < nextRef
    ensures var after := Settle(MarkUploading(files, files[k].ref, nextRef), nextRef, response);
            after[k] == Settled(files[k].(ref := nextRef, status := Uploading), response) &&
            (response.Uploaded? ==> after[k].status == Success) &&
            (response.Refused? ==> after[k].status == Error) &&
            forall i | 0 <= i < |files| && i != k :: after[i] == files[i]
  {
  }

  method LogUpload(entry: FileEntry, response: UploadResponse, userId: string, userRole: string,
                   audit: Audit.AuditTrail, now: int)
    modifies audit
    ensures audit.auditLogs == old(audit.auditLogs) +
            [Audit.MakeLog(userId, userRole, Audit.FileUpload, UploadLogOptions(entry, response), now)]
    ensures audit.persisted == Audit.KeepNewest(old(audit.persisted) +
            [Audit.MakeLog(userId, userRole, Audit.FileUpload, UploadLogOptions(entry, response), now)])
  {
    audit.LogAuditEvent(userId, userRole, Audit.FileUpload, UploadLogOptions(entry, response), now);
  }

  lemma {:induction false} FilterKeepsDistinct(files: seq<FileEntry>, ref: nat)
    requires DistinctRefs(files)
    ensures DistinctRefs(Seqs.Filter(files, (f: FileEntry) => f.ref != ref))
  {
    var keep := (f: FileEntry) => f.ref != ref;
    if files != [] {
      FilterKeepsDistinct(files[1..], ref);
      assert DistinctRefs(files[1..]);
      var rest := Seqs.Filter(files[1..], keep);
      assert Seqs.Filter(files, keep) == (if keep(files[0]) then [files[0]] else []) + rest;
    }
  }
}
