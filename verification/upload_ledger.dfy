/** The upload ledger the pipeline and the trigger handler consult, as an
    in-memory value: the video_uploads rows (status in_progress or completed)
    and the upload_failures rows. Each function stands for one statement of
    the ledger's interface. */
module UploadLedger {
  import opened Common
  import opened Paths

  datatype Status = InProgress | Completed

  datatype UploadRow = UploadRow(
    id: nat,
    folderConfigId: nat,
    videoName: string,
    videoPath: Path,
    status: Status,
    youtubeVideoId: Option<string>,
    metadata: Metadata)

  datatype FailureRow = FailureRow(
    folderConfigId: nat,
    videoName: string,
    videoPath: Path,
    errorMessage: string,
    metadata: Metadata)

  datatype Ledger = Ledger(uploads: seq<UploadRow>, failures: seq<FailureRow>)

  /** Upload rows carry the serial ids 1, 2, 3, ... in insertion order. */
  ghost predicate WellNumbered(l: Ledger) {
    forall i :: 0 <= i < |l.uploads| ==> l.uploads[i].id == i + 1
  }

  predicate IsCompletedAt(row: UploadRow, videoPath: Path) {
    row.videoPath == videoPath && row.status == Completed
  }

  /** createUploadEntry: a new in_progress row with the next serial id. */
  function CreateUploadEntry(l: Ledger, folderConfigId: nat, videoName: string, videoPath: Path, metadata: Metadata): (r: (Ledger, UploadRow))
    ensures r.0 == l.(uploads := l.uploads + [r.1])
    ensures r.1.id == |l.uploads| + 1 && r.1.status == InProgress && r.1.youtubeVideoId == None
    ensures WellNumbered(l) ==> WellNumbered(r.0)
  {
    var row := UploadRow(|l.uploads| + 1, folderConfigId, videoName, videoPath, InProgress, None, metadata);
    (l.(uploads := l.uploads + [row]), row)
  }

  function MarkCompleted(row: UploadRow, id: nat, youtubeVideoId: string): UploadRow {
    if row.id == id then row.(status := Completed, youtubeVideoId := Some(youtubeVideoId)) else row
  }

  /** updateUploadSuccess(id, youtubeVideoId): `WHERE id = $2`. An absent id
      is bound as NULL, which matches no row. */
  function UpdateUploadSuccess(l: Ledger, id: Option<nat>, youtubeVideoId: string): (r: Ledger)
    ensures |r.uploads| == |l.uploads| && r.failures == l.failures
    ensures forall i :: 0 <= i < |l.uploads| ==>
      r.uploads[i] == if id.Some? && l.uploads[i].id == id.value
                      then l.uploads[i].(status := Completed, youtubeVideoId := Some(youtubeVideoId))
                      else l.uploads[i]
  {
    match id
    case None => l
    case Some(k) =>
      l.(uploads := seq(|l.uploads|, i requires 0 <= i < |l.uploads| => MarkCompleted(l.uploads[i], k, youtubeVideoId)))
  }

  /** findByVideoPath: a completed row for the path, if there is one. */
  function FindByVideoPath(l: Ledger, videoPath: Path): (r: Option<UploadRow>)
    ensures r.Some? ==> r.value in l.uploads && IsCompletedAt(r.value, videoPath)
    ensures r.None? <==> forall i :: 0 <= i < |l.uploads| ==> !IsCompletedAt(l.uploads[i], videoPath)
  {
    FindCompleted(l.uploads, videoPath)
  }

  function FindCompleted(rows: seq<UploadRow>, videoPath: Path): (r: Option<UploadRow>)
    ensures r.Some? ==> r.value in rows && IsCompletedAt(r.value, videoPath)
    ensures r.None? <==> forall i :: 0 <= i < |rows| ==> !IsCompletedAt(rows[i], videoPath)
  {
    if rows == [] then None
    else if IsCompletedAt(rows[0], videoPath) then Some(rows[0])
    else FindCompleted(rows[1..], videoPath)
  }

  /** createFailureEntry: one more upload_failures row. */
  function CreateFailureEntry(l: Ledger, folderConfigId: nat, videoName: string, videoPath: Path, errorMessage: string, metadata: Metadata): (r: Ledger)
    ensures r.uploads == l.uploads
    ensures r.failures == l.failures + [FailureRow(folderConfigId, videoName, videoPath, errorMessage, metadata)]
  {
    l.(failures := l.failures + [FailureRow(folderConfigId, videoName, videoPath, errorMessage, metadata)])
  }

  /** The two ledger writes after a successful upload, as the pipeline
      writes them: the success update is keyed by the upload result's id, and
      an upload result has no id, so the update is keyed by nothing. */
  function RecordSuccessAsWritten(l: Ledger, folderConfigId: nat, videoName: string, videoPath: Path, metadata: Metadata, youtubeVideoId: string): (r: Ledger)
    ensures r.failures == l.failures
    ensures r.uploads == l.uploads + [UploadRow(|l.uploads| + 1, folderConfigId, videoName, videoPath, InProgress, None, metadata)]
  {
    var (created, _) := CreateUploadEntry(l, folderConfigId, videoName, videoPath, metadata);
    UpdateUploadSuccess(created, None, youtubeVideoId)
  }

  /** A row that is not completed, appended, changes no lookup. */
  lemma {:induction false} FindCompletedSkipsInProgress(rows: seq<UploadRow>, row: UploadRow, videoPath: Path)
    requires row.status == InProgress
    ensures FindCompleted(rows + [row], videoPath) == FindCompleted(rows, videoPath)
  {
    if rows == [] {
      assert [row][1..] == [];
    } else {
      assert (rows + [row])[1..] == rows[1..] + [row];
      FindCompletedSkipsInProgress(rows[1..], row, videoPath);
    }
  }

  /** As written, the writes after a successful upload leave every lookup of
      the duplicate check as it was, for every video path. */
  lemma AsWrittenKeepsLookups(l: Ledger, folderConfigId: nat, videoName: string, videoPath: Path, metadata: Metadata, youtubeVideoId: string, anyPath: Path)
    ensures FindByVideoPath(RecordSuccessAsWritten(l, folderConfigId, videoName, videoPath, metadata, youtubeVideoId), anyPath)
            == FindByVideoPath(l, anyPath)
  {
    FindCompletedSkipsInProgress(l.uploads, UploadRow(|l.uploads| + 1, folderConfigId, videoName, videoPath, InProgress, None, metadata), anyPath);
  }

  /** As written, a successful upload of a video path the ledger has no
      completed row for still leaves it without one: the new row stays
      in_progress, so the duplicate check never finds the video. */
  lemma AsWrittenNeverCompletes(l: Ledger, folderConfigId: nat, videoName: string, videoPath: Path, metadata: Metadata, youtubeVideoId: string)
    requires FindByVideoPath(l, videoPath) == None
    ensures FindByVideoPath(RecordSuccessAsWritten(l, folderConfigId, videoName, videoPath, metadata, youtubeVideoId), videoPath) == None
    ensures var after := RecordSuccessAsWritten(l, folderConfigId, videoName, videoPath, metadata, youtubeVideoId);
            |after.uploads| == |l.uploads| + 1 && after.uploads[|l.uploads|].status == InProgress
  {
    var after := RecordSuccessAsWritten(l, folderConfigId, videoName, videoPath, metadata, youtubeVideoId);
    assert after.uploads == l.uploads + [CreateUploadEntry(l, folderConfigId, videoName, videoPath, metadata).1];
    assert forall i :: 0 <= i < |after.uploads| ==> !IsCompletedAt(after.uploads[i], videoPath) by {
      forall i | 0 <= i < |after.uploads|
        ensures !IsCompletedAt(after.uploads[i], videoPath)
      {
        if i < |l.uploads| { assert after.uploads[i] == l.uploads[i]; }
      }
    }
  }

  /** The same writes keyed by the id of the row just created, as evidently
      intended. */
  function RecordSuccess(l: Ledger, folderConfigId: nat, videoName: string, videoPath: Path, metadata: Metadata, youtubeVideoId: string): (r: Ledger)
    ensures r.failures == l.failures && |r.uploads| == |l.uploads| + 1
    ensures r.uploads[|l.uploads|] == UploadRow(|l.uploads| + 1, folderConfigId, videoName, videoPath, Completed, Some(youtubeVideoId), metadata)
  {
    var (created, entry) := CreateUploadEntry(l, folderConfigId, videoName, videoPath, metadata);
    UpdateUploadSuccess(created, Some(entry.id), youtubeVideoId)
  }

  /** Keyed by the new row's id, a successful upload marks exactly that row
      completed with the published id and touches no other row, so the
      duplicate check finds the video path from then on. */
  lemma RecordSuccessCompletes(l: Ledger, folderConfigId: nat, videoName: string, videoPath: Path, metadata: Metadata, youtubeVideoId: string)
    requires WellNumbered(l)
    ensures var after := RecordSuccess(l, folderConfigId, videoName, videoPath, metadata, youtubeVideoId);
            && WellNumbered(after)
            && after.failures == l.failures
            && |after.uploads| == |l.uploads| + 1
            && after.uploads[..|l.uploads|] == l.uploads
            && after.uploads[|l.uploads|] == UploadRow(|l.uploads| + 1, folderConfigId, videoName, videoPath, Completed, Some(youtubeVideoId), metadata)
            && FindByVideoPath(after, videoPath).Some?
  {
    var after := RecordSuccess(l, folderConfigId, videoName, videoPath, metadata, youtubeVideoId);
    var created := CreateUploadEntry(l, folderConfigId, videoName, videoPath, metadata).0;
    assert WellNumbered(created);
    forall i | 0 <= i < |l.uploads|
      ensures after.uploads[i] == l.uploads[i]
    {
      assert created.uploads[i] == l.uploads[i];
    }
    assert IsCompletedAt(after.uploads[|l.uploads|], videoPath);
  }
}
