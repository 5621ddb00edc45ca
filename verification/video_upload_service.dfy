/** The upload pipeline of src/services/videoUploadService.js: read an item
    directory's metadata.json, choose its video and thumbnail, upload, record
    the upload in the ledger, then archive the directory. The filesystem and
    the ledger are values passed in and handed back. */
module VideoUpload {
  import opened Common
  import opened Paths
  import opened FileSystem
  import opened UploadLedger
  import YouTube

  datatype PipelineError =
    | MetadataUnreadable             // metadata.json missing or not JSON
    | ListingFailed(fsError: FsError)  // readdir of the item failed
    | NoVideoFile                    // no entry ends in ".mp4"
    | UploadFailed(uploadError: YouTube.UploadError)

  predicate IsVideo(file: string) {
    EndsWith(file, ".mp4")
  }

  predicate IsThumbnail(file: string) {
    EndsWith(file, ".png") || EndsWith(file, ".jpg")
  }

  /** What the pipeline knows about the item once its video is chosen. */
  datatype Prepared = Prepared(videoName: string, videoPath: Path, metadata: Metadata)

  /** The steps before the upload: metadata, then the first ".mp4" entry as
      the video, then the first ".png" or ".jpg" entry as the thumbnail. */
  function Prepare(fs: Fs, folder: Path): (r: Result<Prepared, PipelineError>)
    ensures r == Err(MetadataUnreadable) <==> ReadJson(fs, Join(folder, "metadata.json")) == None
    ensures r.Err? && r.error.ListingFailed? <==>
              ReadJson(fs, Join(folder, "metadata.json")).Some? && folder !in fs.dirs
    ensures r == Err(NoVideoFile) <==>
              ReadJson(fs, Join(folder, "metadata.json")).Some? && folder in fs.dirs &&
              forall j :: 0 <= j < |fs.dirs[folder]| ==> !IsVideo(fs.dirs[folder][j])
    ensures r.Err? ==> !r.error.UploadFailed?
  {
    match ReadJson(fs, Join(folder, "metadata.json"))
    case None => Err(MetadataUnreadable)
    case Some(md) =>
      match ReadDir(fs, folder)
      case Err(e) => Err(ListingFailed(e))
      case Ok(files) =>
        match FindFirst(files, IsVideo)
        case None => Err(NoVideoFile)
        case Some(i) =>
          var metadata := match FindFirst(files, IsThumbnail)
                          case None => md
                          case Some(j) => md.(thumbnailPath := Some(Join(folder, files[j])));
          Ok(Prepared(Basename(files[i]), Join(folder, files[i]), metadata))
  }

  /** i is the first index of s whose entry satisfies p. */
  predicate FirstWhere(s: seq<string>, p: string -> bool, i: int) {
    0 <= i < |s| && p(s[i]) && forall j :: 0 <= j < i ==> !p(s[j])
  }

  /** A prepared item's video is the first ".mp4" entry of its listing; its
      metadata is the decoded metadata.json, with thumbnailPath set to the
      first ".png" or ".jpg" entry when there is one and left as it was
      otherwise. */
  lemma PrepareSelects(fs: Fs, folder: Path)
    requires Prepare(fs, folder).Ok?
    ensures folder in fs.dirs && ReadJson(fs, Join(folder, "metadata.json")).Some?
    ensures var files := fs.dirs[folder]; var p := Prepare(fs, folder).value;
            exists i :: FirstWhere(files, IsVideo, i) && p.videoPath == Join(folder, files[i]) && p.videoName == Basename(files[i])
    ensures var files := fs.dirs[folder]; var p := Prepare(fs, folder).value;
            var md := ReadJson(fs, Join(folder, "metadata.json")).value;
            && p.metadata.(thumbnailPath := md.thumbnailPath) == md
            && (forall j :: FirstWhere(files, IsThumbnail, j) ==> p.metadata.thumbnailPath == Some(Join(folder, files[j])))
            && ((forall j :: 0 <= j < |files| ==> !IsThumbnail(files[j])) ==> p.metadata == md)
  {
    var files := fs.dirs[folder];
    var i := FindFirst(files, IsVideo).value;
    assert FirstWhere(files, IsVideo, i);
    match FindFirst(files, IsThumbnail)
    case None =>
    case Some(j) =>
      forall j' | FirstWhere(files, IsThumbnail, j') ensures j' == j {
      }
  }

  /** The name of a video file is never empty: it keeps its ".mp4" suffix. */
  lemma VideoNameKeepsSuffix(file: string)
    requires IsVideo(file)
    ensures EndsWith(Basename(file), ".mp4") && Basename(file) != ""
  {
    match LastSlash(file)
    case None =>
    case Some(i) =>
      assert file[|file| - 4..] == ".mp4";
      assert file[i + 1..][|file[i + 1..]| - 4..] == file[|file| - 4..];
  }

  /** Whether the catch block writes a failure row: only once the video's
      name is known (a non-empty string) and for a non-zero config id. */
  predicate RecordsFailure(folderConfigId: nat, videoName: string) {
    folderConfigId != 0 && videoName != ""
  }

  /** The upload outcome as the pipeline reports it. */
  function FromUpload(u: Result<YouTube.UploadResult, YouTube.UploadError>): Result<YouTube.UploadResult, PipelineError> {
    match u
    case Ok(v) => Ok(v)
    case Err(e) => Err(UploadFailed(e))
  }

  /** The archive step as a loop of renames, as the pipeline runs it. It ends
      in exactly the state and error Archive describes. */
  method MoveToArchive(fs: Fs, folder: Path) returns (step: Step)
    ensures step == Archive(fs, folder)
  {
    var parent := Dirname(folder);
    var archiveDir := Join(parent, "archive");
    var dest := ArchivePath(folder);
    var made := MakeDir(fs, parent, "archive");
    if made.Err? {
      return Step(fs, Some(made.error));
    }
    var fs1 := made.value;
    made := MakeDir(fs1, archiveDir, Basename(folder));
    if made.Err? {
      return Step(fs1, Some(made.error));
    }
    var fs2 := made.value;
    var listing := ReadDir(fs2, folder);
    if listing.Err? {
      return Step(fs2, Some(listing.error));
    }
    var files := listing.value;
    var current := fs2;
    var i := 0;
    while i < |files|
      invariant 0 <= i <= |files|
      invariant MoveAll(fs2, folder, dest, files) == MoveAll(current, folder, dest, files[i..])
    {
      var renamed := Rename(current, folder, dest, files[i]);
      if renamed.Err? {
        return Step(current, Some(renamed.error));
      }
      assert files[i..][1..] == files[i + 1..];
      current := renamed.value;
      i := i + 1;
    }
    var removed := RemoveDir(current, folder);
    if removed.Err? {
      return Step(current, Some(removed.error));
    }
    step := Step(removed.value, None);
  }

  /** What one processVideoUpload call for `folder` leaves behind, whatever
      the API answers: an error before the upload changes nothing; a failed
      upload writes at most one failure row and moves nothing; a successful
      one writes the upload row as the source does and archives the item. */
  ghost predicate PipelineOutcome(folderConfigId: nat, folder: Path, fs: Fs, ledger: Ledger, now: nat,
                                  r: Result<YouTube.UploadResult, PipelineError>, fs': Fs, ledger': Ledger, done: nat)
  {
    && now <= done
    && (Prepare(fs, folder).Err? ==>
          r == Err(Prepare(fs, folder).error) && fs' == fs && ledger' == ledger && done == now)
    && (Prepare(fs, folder).Ok? && r.Ok? ==>
          var p := Prepare(fs, folder).value;
          && ledger' == RecordSuccessAsWritten(ledger, folderConfigId, p.videoName, p.videoPath, p.metadata, r.value.videoId)
          && fs' == Archive(fs, folder).fs)
    && (Prepare(fs, folder).Ok? && r.Err? ==>
          var p := Prepare(fs, folder).value;
          && r.error.UploadFailed? && fs' == fs
          && ledger' == (if RecordsFailure(folderConfigId, p.videoName)
                         then CreateFailureEntry(ledger, folderConfigId, p.videoName, p.videoPath,
                                                 YouTube.ErrorMessage(r.error.uploadError), p.metadata)
                         else ledger))
  }

  /** The pipeline only appends to the ledger: every row that was there is
      still there, unchanged and in place, at most one row of each kind is
      added, and an added upload row is in_progress. */
  lemma PipelineAppendsToLedger(folderConfigId: nat, folder: Path, fs: Fs, ledger: Ledger, now: nat,
                                r: Result<YouTube.UploadResult, PipelineError>, fs': Fs, ledger': Ledger, done: nat)
    requires PipelineOutcome(folderConfigId, folder, fs, ledger, now, r, fs', ledger', done)
    ensures |ledger.uploads| <= |ledger'.uploads| <= |ledger.uploads| + 1
    ensures |ledger.failures| <= |ledger'.failures| <= |ledger.failures| + 1
    ensures ledger'.uploads[..|ledger.uploads|] == ledger.uploads
    ensures ledger'.failures[..|ledger.failures|] == ledger.failures
    ensures forall i :: |ledger.uploads| <= i < |ledger'.uploads| ==> ledger'.uploads[i].status == InProgress
  {
    if Prepare(fs, folder).Ok? {
      var p := Prepare(fs, folder).value;
      if r.Ok? {
        var row := UploadRow(|ledger.uploads| + 1, folderConfigId, p.videoName, p.videoPath, InProgress, None, p.metadata);
        assert ledger'.uploads == ledger.uploads + [row] && ledger'.failures == ledger.failures;
        assert (ledger.uploads + [row])[..|ledger.uploads|] == ledger.uploads;
      } else if RecordsFailure(folderConfigId, p.videoName) {
        var row := FailureRow(folderConfigId, p.videoName, p.videoPath, YouTube.ErrorMessage(r.error.uploadError), p.metadata);
        assert ledger'.failures == ledger.failures + [row] && ledger'.uploads == ledger.uploads;
        assert (ledger.failures + [row])[..|ledger.failures|] == ledger.failures;
      } else {
        assert ledger' == ledger;
      }
    } else {
      assert ledger' == ledger;
    }
  }

  class VideoUploadService {
    const youtube: YouTube.YouTubeService

    constructor (youtube: YouTube.YouTubeService)
      ensures this.youtube == youtube
    {
      this.youtube := youtube;
    }

    /** processVideoUpload(folderConfigId, videoFolderPath). Before the video
        is chosen, a failure uploads nothing and writes nothing. After it, the
        upload runs; a failed upload writes one failure row (when the config
        id is non-zero) and is passed on; a successful one writes the upload
        row the way the source does, keyed by the result's missing id so that
        the row stays in_progress, and then archives the item, whose own
        failure is swallowed. Returns the outcome, the new filesystem and ledger, the
        number of upload attempts and the time the call ends. */
    method ProcessVideoUpload(folderConfigId: nat, folder: Path, fs: Fs, ledger: Ledger, now: nat,
                              api: (YouTube.InsertRequest, nat) -> YouTube.InsertResponse)
      returns (r: Result<YouTube.UploadResult, PipelineError>, fs': Fs, ledger': Ledger, attempts: nat, done: nat)
      requires youtube.limiter.Valid()
      modifies youtube.limiter
      ensures youtube.limiter.Valid() && now <= done
      ensures old(youtube.limiter.Steady()) && old(youtube.limiter.clock) <= now ==>
                youtube.limiter.Steady() && youtube.limiter.clock <= done
      ensures |youtube.limiter.grants| == |old(youtube.limiter.grants)| + attempts
      ensures PipelineOutcome(folderConfigId, folder, fs, ledger, now, r, fs', ledger', done)
      ensures Prepare(fs, folder).Err? ==> attempts == 0
      ensures Prepare(fs, folder).Ok? ==> 1 <= attempts <= YouTube.MaxRetries
      ensures Prepare(fs, folder).Ok? && !youtube.testMode ==>
                var request := YouTube.BuildRequest(Prepare(fs, folder).value.metadata);
                && (forall k :: 1 <= k < attempts ==> YouTube.AttemptOutcome(api(request, k), k) == None)
                && YouTube.AttemptOutcome(api(request, attempts), attempts).Some?
                && r == FromUpload(YouTube.AttemptOutcome(api(request, attempts), attempts).value)
      ensures Prepare(fs, folder).Ok? && youtube.testMode ==>
                attempts == 1 && r.Ok? && r.value.testMode && StartsWith(r.value.videoId, "TEST-")
    {
      fs', ledger', attempts, done := fs, ledger, 0, now;
      var read := ReadJson(fs, Join(folder, "metadata.json"));
      if read.None? {
        r := Err(MetadataUnreadable);
        return;
      }
      var metadata := read.value;
      var listing := ReadDir(fs, folder);
      if listing.Err? {
        r := Err(ListingFailed(listing.error));
        return;
      }
      var videoFiles := listing.value;
      var videoFile := FindFirst(videoFiles, IsVideo);
      if videoFile.None? {
        r := Err(NoVideoFile);
        return;
      }
      var videoPath := Join(folder, videoFiles[videoFile.value]);
      var videoName := Basename(videoFiles[videoFile.value]);
      var thumbnailFile := FindFirst(videoFiles, IsThumbnail);
      if thumbnailFile.Some? {
        metadata := metadata.(thumbnailPath := Some(Join(folder, videoFiles[thumbnailFile.value])));
      }
      assert Prepare(fs, folder) == Ok(Prepared(videoName, videoPath, metadata));
      var upload, delays, thumbnailTried;
      upload, attempts, delays, thumbnailTried, done := youtube.UploadVideo(metadata, now, api);
      match upload
      case Err(e) =>
        if RecordsFailure(folderConfigId, videoName) {
          ledger' := CreateFailureEntry(ledger, folderConfigId, videoName, videoPath, YouTube.ErrorMessage(e), metadata);
        }
        r := Err(UploadFailed(e));
      case Ok(result) =>
        ledger' := RecordSuccessAsWritten(ledger, folderConfigId, videoName, videoPath, metadata, result.videoId);
        var archived := MoveToArchive(fs, folder);
        fs' := archived.fs;
        r := Ok(result);
    }
  }

  /** A successful upload of an item listed under root, with nothing in the
      way of its archival, leaves the item archived under root/archive. The
      ledger writes the pipeline makes change no lookup: the new row stays
      in_progress, so a video path the ledger did not know as completed is
      still unknown. */
  lemma SuccessArchivesAsWritten(fs: Fs, ledger: Ledger, root: Path, item: string, folderConfigId: nat, youtubeVideoId: string)
    requires Prepare(fs, Join(root, item)).Ok?
    requires root != [] && '/' !in item && item != "archive"
    requires root in fs.dirs
    requires Join(root, "archive") in fs.dirs || "archive" !in fs.dirs[root]
    requires Join(Join(root, "archive"), item) !in fs.dirs
    requires Join(root, "archive") in fs.dirs ==> item !in fs.dirs[Join(root, "archive")]
    requires Distinct(fs.dirs[Join(root, item)])
    requires forall n :: n in fs.dirs[Join(root, item)] ==>
               Join(Join(root, item), n) !in fs.locked && Join(Join(root, item), n) !in fs.dirs &&
               Join(Join(Join(root, "archive"), item), n) !in fs.dirs
    ensures var p := Prepare(fs, Join(root, item)).value;
            var after := Archive(fs, Join(root, item)).fs;
            var recorded := RecordSuccessAsWritten(ledger, folderConfigId, p.videoName, p.videoPath, p.metadata, youtubeVideoId);
            && root in after.dirs && item !in after.dirs[root]
            && Join(Join(root, "archive"), item) in after.dirs
            && after.dirs[Join(Join(root, "archive"), item)] == fs.dirs[Join(root, item)]
            && recorded.uploads[|ledger.uploads|].status == InProgress
            && FindByVideoPath(recorded, p.videoPath) == FindByVideoPath(ledger, p.videoPath)
  {
    var p := Prepare(fs, Join(root, item)).value;
    ArchiveCompletes(fs, root, item);
    AsWrittenKeepsLookups(ledger, folderConfigId, p.videoName, p.videoPath, p.metadata, youtubeVideoId, p.videoPath);
  }

  /** With the success write keyed by the new row's id, as evidently
      intended, the same upload also leaves its video path recorded as
      completed, so the next trigger neither lists the item nor uploads the
      video again. */
  lemma SuccessArchivesAndRecords(fs: Fs, ledger: Ledger, root: Path, item: string, folderConfigId: nat, youtubeVideoId: string)
    requires WellNumbered(ledger)
    requires Prepare(fs, Join(root, item)).Ok?
    requires root != [] && '/' !in item && item != "archive"
    requires root in fs.dirs
    requires Join(root, "archive") in fs.dirs || "archive" !in fs.dirs[root]
    requires Join(Join(root, "archive"), item) !in fs.dirs
    requires Join(root, "archive") in fs.dirs ==> item !in fs.dirs[Join(root, "archive")]
    requires Distinct(fs.dirs[Join(root, item)])
    requires forall n :: n in fs.dirs[Join(root, item)] ==>
               Join(Join(root, item), n) !in fs.locked && Join(Join(root, item), n) !in fs.dirs &&
               Join(Join(Join(root, "archive"), item), n) !in fs.dirs
    ensures var p := Prepare(fs, Join(root, item)).value;
            var after := Archive(fs, Join(root, item)).fs;
            var recorded := RecordSuccess(ledger, folderConfigId, p.videoName, p.videoPath, p.metadata, youtubeVideoId);
            && root in after.dirs && item !in after.dirs[root]
            && Join(Join(root, "archive"), item) in after.dirs
            && after.dirs[Join(Join(root, "archive"), item)] == fs.dirs[Join(root, item)]
            && FindByVideoPath(recorded, p.videoPath).Some?
  {
    var p := Prepare(fs, Join(root, item)).value;
    ArchiveCompletes(fs, root, item);
    RecordSuccessCompletes(ledger, folderConfigId, p.videoName, p.videoPath, p.metadata, youtubeVideoId);
  }
}
