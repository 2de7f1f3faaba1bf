/** The user upload panel: the per-file checks and storage names of a
    batch upload, and folder creation. */
module Uploads {
  import opened Common
  import opened Types
  import opened Strings
  import ViewEditor

  /** What the outside world answers for one file: the time, the random
      suffix `Math.random().toString(36).substring(7)`, the stored file's
      public URL (`None` when storing failed), whether the browser decodes
      the file as an image (its `onload` fires), the decoded image's size
      and whether the database accepted the record. */
  datatype FileEnv = FileEnv(now: nat, suffix: string, publicUrl: Option<string>, decoded: bool,
                             width: real, height: real, recordSaved: bool)

  /** The `user_uploads` row inserted for a stored file. */
  datatype NewUpload = NewUpload(userId: string, folderId: Option<string>, fileName: string,
                                 originalUrl: string, fileSize: nat, mimeType: string,
                                 width: real, height: real)

  /** What names a stored file: its owner, the time, the random suffix and
      the picked file's name; `PathOf` renders it. */
  datatype StorageKey = StorageKey(userId: string, now: nat, suffix: string, fileName: string)

  function PathOf(key: StorageKey): string {
    StoragePath(key.userId, key.now, key.suffix, key.fileName)
  }

  /** What became of one file of the batch; every file that passed the
      checks was sent to storage under `key`. */
  datatype Outcome =
    | Rejected(reason: Rejection)
    | StorageFailed(key: StorageKey)
    | Stalled(key: StorageKey)
    | Stored(key: StorageKey, row: NewUpload, recordSaved: bool)

  /** The only type this panel accepts. */
  const PngType: string := "image/png"

  /** The checks of the loop body: the type first, then the size. */
  function CheckUpload(file: UploadFile): (r: Option<Rejection>)
    ensures r == Some(WrongType) <==> file.mimeType != PngType
    ensures r == Some(TooLarge) <==> file.mimeType == PngType && file.size > MaxUploadBytes
    ensures r.None? <==> file.mimeType == PngType && file.size <= MaxUploadBytes
  {
    if file.mimeType != PngType then Some(WrongType)
    else if file.size > MaxUploadBytes then Some(TooLarge)
    else None
  }

  /** A file exactly at the bound passes; one byte more does not. */
  lemma SizeBoundIsInclusive(name: string)
    ensures CheckUpload(UploadFile(name, PngType, MaxUploadBytes)).None?
    ensures CheckUpload(UploadFile(name, PngType, MaxUploadBytes + 1)) == Some(TooLarge)
  {
  }

  /** Every file this panel accepts the mockup upload would accept too, but
      not the other way round: JPEG is accepted only there. */
  lemma PanelIsStricterThanMockupUpload(file: UploadFile)
    ensures CheckUpload(file).None? ==> ViewEditor.CheckMockup(file).None?
    ensures CheckUpload(UploadFile(file.name, "image/jpeg", 0)) == Some(WrongType)
    ensures ViewEditor.CheckMockup(UploadFile(file.name, "image/jpeg", 0)).None?
  {
    assert PngType == ViewEditor.MockupTypes[0];
    assert "image/jpeg" == ViewEditor.MockupTypes[1];
  }

  /** `<user id>/<time>-<suffix>.<extension>`. */
  function StoragePath(userId: string, now: nat, suffix: string, fileName: string): string {
    userId + "/" + NatToString(now) + "-" + suffix + ['.'] + LastSegment(fileName, '.')
  }

  /** The stored file lies in the user's own folder. */
  lemma StoragePathInUserFolder(userId: string, now: nat, suffix: string, fileName: string)
    ensures var p := StoragePath(userId, now, suffix, fileName);
            |p| > |userId| && p[..|userId| + 1] == userId + "/"
  {
    PrefixOfSix(userId + "/", NatToString(now), "-", suffix, ['.'], LastSegment(fileName, '.'));
  }

  /** The stored file keeps the extension of the picked file. */
  lemma StoragePathKeepsExtension(userId: string, now: nat, suffix: string, fileName: string)
    ensures LastSegment(StoragePath(userId, now, suffix, fileName), '.') == LastSegment(fileName, '.')
  {
    LastSegmentAfterSeparator(userId + "/" + NatToString(now) + "-" + suffix, '.', LastSegment(fileName, '.'));
  }

  /** One pass of the loop body. A rejected file is skipped before any
      storage; a stored file is recorded in the current folder once its
      image has loaded. A stored file that never loads leaves the body
      waiting for an `onload` that does not come (`Stalled`): the promise
      has no `onerror` path. */
  function ProcessFile(userId: string, folderId: Option<string>, file: UploadFile, env: FileEnv): (r: Outcome)
    ensures CheckUpload(file).Some? <==> r.Rejected?
    ensures r.Rejected? ==> r.reason == CheckUpload(file).value
    ensures !r.Rejected? ==> r.key == StorageKey(userId, env.now, env.suffix, file.name)
    ensures r.StorageFailed? <==> CheckUpload(file).None? && env.publicUrl.None?
    ensures r.Stalled? <==> CheckUpload(file).None? && env.publicUrl.Some? && !env.decoded
    ensures r.Stored? ==> && r.row.userId == userId && r.row.folderId == folderId
                          && r.row.fileName == file.name && r.row.fileSize == file.size
                          && r.row.mimeType == PngType && r.row.originalUrl == env.publicUrl.value
                          && r.recordSaved == env.recordSaved
  {
    match CheckUpload(file)
    case Some(reason) => Rejected(reason)
    case None =>
      var key := StorageKey(userId, env.now, env.suffix, file.name);
      match env.publicUrl
      case None => StorageFailed(key)
      case Some(url) =>
        if !env.decoded then Stalled(key)
        else Stored(key, NewUpload(userId, folderId, file.name, url, file.size, file.mimeType, env.width, env.height),
               env.recordSaved)
  }

  /** How `handleFileChange` ends. `Hung` is a batch whose last processed
      file stalled: the handler never returns, so the files after it are
      never looked at, the loading flag stays on and the list is not
      refetched. */
  datatype BatchResult = NoFiles | NotSignedIn | Processed(outcomes: seq<Outcome>) | Hung(outcomes: seq<Outcome>)

  /** `handleFileChange`: nothing without files or without a signed-in
      user; otherwise the files are processed in order, and a rejected file
      or a failed upload never stops the ones after it. The first stored
      file whose image does not load stops the batch for good. */
  method HandleFiles(files: Option<seq<UploadFile>>, user: Option<string>, folderId: Option<string>,
                     envs: seq<FileEnv>) returns (r: BatchResult)
    requires files.Some? ==> |envs| == |files.value|
    ensures files.None? || files.value == [] <==> r.NoFiles?
    ensures r.NotSignedIn? <==> files.Some? && files.value != [] && user.None?
    ensures r.Processed? || r.Hung? ==> && files.Some? && user.Some?
                                        && |r.outcomes| <= |files.value|
                                        && forall k :: 0 <= k < |r.outcomes| ==>
                                             r.outcomes[k] == ProcessFile(user.value, folderId, files.value[k], envs[k])
    ensures r.Processed? ==> && |r.outcomes| == |files.value|
                             && forall k :: 0 <= k < |r.outcomes| ==> !r.outcomes[k].Stalled?
    ensures r.Hung? ==> && r.outcomes != [] && r.outcomes[|r.outcomes| - 1].Stalled?
                        && forall k :: 0 <= k < |r.outcomes| - 1 ==> !r.outcomes[k].Stalled?
  {
    if files.None? || |files.value| == 0 {
      return NoFiles;
    }
    if user.None? {
      return NotSignedIn;
    }
    var fs := files.value;
    var outcomes: seq<Outcome> := [];
    var i := 0;
    while i < |fs|
      invariant 0 <= i <= |fs|
      invariant |outcomes| == i
      invariant forall k :: 0 <= k < i ==> outcomes[k] == ProcessFile(user.value, folderId, fs[k], envs[k])
      invariant forall k :: 0 <= k < i ==> !outcomes[k].Stalled?
    {
      var outcome := ProcessFile(user.value, folderId, fs[i], envs[i]);
      var before := outcomes;
      outcomes := outcomes + [outcome];
      assert forall k :: 0 <= k < i ==> outcomes[k] == before[k];
      if outcome.Stalled? {
        r := Hung(outcomes);
        return;
      }
      i := i + 1;
    }
    return Processed(outcomes);
  }

  /** Whether the whole batch completes depends only on whether some
      stored file fails to load. */
  predicate Stalls(user: string, folderId: Option<string>, files: seq<UploadFile>, envs: seq<FileEnv>)
    requires |envs| == |files|
  {
    exists k :: 0 <= k < |files| && ProcessFile(user, folderId, files[k], envs[k]).Stalled?
  }

  /** A signed-in batch hangs exactly when one of its files stalls. */
  method HangsIffSomeFileStalls(files: seq<UploadFile>, user: string, folderId: Option<string>,
                                envs: seq<FileEnv>) returns (r: BatchResult)
    requires |envs| == |files| && files != []
    ensures r.Hung? <==> Stalls(user, folderId, files, envs)
    ensures r.Processed? <==> !Stalls(user, folderId, files, envs)
  {
    r := HandleFiles(Some(files), Some(user), folderId, envs);
    if r.Hung? {
      var k := |r.outcomes| - 1;
      assert ProcessFile(user, folderId, files[k], envs[k]).Stalled?;
    }
  }

  /** The `user_folders` row a folder creation inserts. */
  datatype NewFolder = NewFolder(userId: string, name: string, parentFolderId: Option<string>)

  /** The new-folder dialog: whether it is open and the typed name. */
  datatype FolderDialog = FolderDialog(open: bool, name: string)

  /** `createFolder`: a blank name or a missing user does nothing; otherwise
      the name as typed is inserted under the current folder, and a
      successful insert closes and clears the dialog. */
  function CreateFolder(dialog: FolderDialog, user: Option<string>, currentFolderId: Option<string>,
                        insertOk: bool): (r: (FolderDialog, Option<NewFolder>))
    ensures IsBlank(dialog.name) || user.None? <==> r.1.None?
    ensures r.1.None? ==> r.0 == dialog
    ensures r.1.Some? ==> r.1.value == NewFolder(user.value, dialog.name, currentFolderId)
    ensures r.1.Some? && insertOk ==> r.0 == FolderDialog(false, "")
    ensures r.1.Some? && !insertOk ==> r.0 == dialog
  {
    if IsBlank(dialog.name) || user.None? then (dialog, None)
    else
      var row := NewFolder(user.value, dialog.name, currentFolderId);
      (if insertOk then FolderDialog(false, "") else dialog, Some(row))
  }

  /** A name of spaces only creates nothing, whoever is signed in. */
  lemma SpacesCreateNoFolder(user: Option<string>, currentFolderId: Option<string>, insertOk: bool)
    ensures CreateFolder(FolderDialog(true, "  "), user, currentFolderId, insertOk).1.None?
  {
    BlankIffAllSpace("  ");
  }
}
