/**
 * `YaUploader` and `GoogleUploader` (backup.py:95-211) once their HTTP and
 * Drive calls have answered: which folder and file names they use, and what
 * they log for each outcome.
 */
module Uploaders {
  import opened Wrappers
  import opened Records

  /** A POST to the Yandex Disk upload endpoint: destination `path` and source `url`. */
  datatype UploadRequest = UploadRequest(path: string, url: string)

  /**
   * The metadata passed to one Drive file-creation request: the file's name
   * and its parent folder id. It is sent whether or not the creation succeeds.
   */
  datatype DriveFile = DriveFile(name: string, parent: Option<string>)

  /** How many records of `log` have level `level`. */
  function CountLevel(log: seq<LogEntry>, level: Level): nat
    decreases |log|
  {
    if log == [] then 0
    else CountLevel(log[..|log| - 1], level) + (if log[|log| - 1].level == level then 1 else 0)
  }

  /** How many of `statuses` equal `code`. */
  function CountStatus(statuses: seq<int>, code: int): nat
    decreases |statuses|
  {
    if statuses == [] then 0
    else CountStatus(statuses[..|statuses| - 1], code) + (if statuses[|statuses| - 1] == code then 1 else 0)
  }

  /** How many of `outcomes` are successes. */
  function CountTrue(outcomes: seq<bool>): nat
    decreases |outcomes|
  {
    if outcomes == [] then 0
    else CountTrue(outcomes[..|outcomes| - 1]) + (if outcomes[|outcomes| - 1] then 1 else 0)
  }

  /**
   * A log whose j-th record has level `UploadLevel(statuses[j])` holds one
   * Info record per 202 answer and one Error record per other answer.
   */
  lemma {:induction false} StatusLevelsCount(entries: seq<LogEntry>, statuses: seq<int>)
    requires |entries| == |statuses|
    requires forall h :: 0 <= h < |entries| ==> entries[h].level == UploadLevel(statuses[h])
    ensures CountLevel(entries, Info) == CountStatus(statuses, 202)
    ensures CountLevel(entries, Error) == |statuses| - CountStatus(statuses, 202)
  {
    if entries != [] {
      var k := |entries| - 1;
      StatusLevelsCount(entries[..k], statuses[..k]);
    }
  }

  /**
   * A log whose j-th record is Info exactly when `outcomes[j]` holds, and
   * Error otherwise, counts the successes as Info and the failures as Error.
   */
  lemma {:induction false} OutcomeLevelsCount(entries: seq<LogEntry>, outcomes: seq<bool>)
    requires |entries| == |outcomes|
    requires forall h :: 0 <= h < |entries| ==> entries[h].level == (if outcomes[h] then Info else Error)
    ensures CountLevel(entries, Info) == CountTrue(outcomes)
    ensures CountLevel(entries, Error) == |outcomes| - CountTrue(outcomes)
  {
    if entries != [] {
      var k := |entries| - 1;
      OutcomeLevelsCount(entries[..k], outcomes[..k]);
    }
  }

  /** The level `YaUploader.make_folder` logs for the status of its PUT. */
  function FolderLevel(status: int): (l: Level)
    ensures l == Info <==> status == 201
    ensures l == Warning <==> status == 409
    ensures l == Error <==> status != 201 && status != 409
  {
    if status == 201 then Info else if status == 409 then Warning else Error
  }

  /** The level `YaUploader.upload` logs for the status of one POST. */
  function UploadLevel(status: int): (l: Level)
    ensures l == Info <==> status == 202
    ensures l == Error <==> status != 202
  {
    if status == 202 then Info else Error
  }

  /**
   * `YaUploader.make_folder` after its PUT answered `status`: the folder path
   * comes back unchanged whatever the status, with one log record; an
   * existing folder (409) is only a warning.
   */
  function YaMakeFolder(folderPath: string, status: int): (r: (string, LogEntry))
    ensures r.0 == folderPath && r.1.subject == folderPath
    ensures r.1.level == Info <==> status == 201
    ensures r.1.level == Warning <==> status == 409
  {
    (folderPath, LogEntry(FolderLevel(status), folderPath))
  }

  /**
   * `YaUploader.upload`: make the folder `id{owner}_{album}` named by the two
   * trailing ids, then post every photo before them to `{folder}/{name}.jpg`.
   * `folderStatus` answers the PUT and `statuses[j]` the j-th POST.
   */
  method YaUpload(data: seq<Entry>, folderStatus: int, statuses: seq<int>)
    returns (folder: string, requests: seq<UploadRequest>, log: seq<LogEntry>)
    requires WellFormedBatch(data)
    requires |statuses| == |data| - 2
    ensures folder == FolderName(data[|data| - 2].id, data[|data| - 1].id)
    ensures |requests| == |data| - 2
    ensures forall j :: 0 <= j < |data| - 2 ==>
              requests[j] == UploadRequest(folder + "/" + JpgName(data[j].photo.fileName), data[j].photo.url)
    ensures |log| == |data| - 1 && log[0] == LogEntry(FolderLevel(folderStatus), folder)
    ensures forall j :: 0 <= j < |data| - 2 ==>
              log[j + 1] == LogEntry(UploadLevel(statuses[j]), JpgName(data[j].photo.fileName))
    ensures CountLevel(log[1..], Info) == CountStatus(statuses, 202)
    ensures CountLevel(log[1..], Error) == |statuses| - CountStatus(statuses, 202)
  {
    var made := YaMakeFolder(FolderName(data[|data| - 2].id, data[|data| - 1].id), folderStatus);
    folder := made.0;
    var entries: seq<LogEntry> := [];
    requests := [];
    var n := |data| - 2;
    for j := 0 to n
      invariant |requests| == j && |entries| == j
      invariant forall h :: 0 <= h < j ==>
                  requests[h] == UploadRequest(folder + "/" + JpgName(data[h].photo.fileName), data[h].photo.url)
      invariant forall h :: 0 <= h < j ==>
                  entries[h] == LogEntry(UploadLevel(statuses[h]), JpgName(data[h].photo.fileName))
    {
      var photo := data[j].photo;
      var entry := LogEntry(UploadLevel(statuses[j]), JpgName(photo.fileName));
      requests := requests + [UploadRequest(folder + "/" + JpgName(photo.fileName), photo.url)];
      entries := entries + [entry];
    }
    log := [made.1] + entries;
    assert log[1..] == entries;
    StatusLevelsCount(entries, statuses);
  }

  /**
   * `GoogleUploader.upload`: create the folder `id{owner}_{album}`, then send
   * one file-creation request `{name}.jpg` per photo into it. `folderId` is
   * the id the folder creation returned, `None` when it raised `HttpError`;
   * `uploaded[j]` says whether the j-th file creation succeeded.
   */
  method GoogleUpload(data: seq<Entry>, folderId: Option<string>, uploaded: seq<bool>)
    returns (folder: string, files: seq<DriveFile>, log: seq<LogEntry>)
    requires WellFormedBatch(data)
    requires |uploaded| == |data| - 2
    ensures folder == FolderName(data[|data| - 2].id, data[|data| - 1].id)
    ensures |files| == |data| - 2
    ensures forall j :: 0 <= j < |data| - 2 ==>
              files[j] == DriveFile(JpgName(data[j].photo.fileName), folderId)
    ensures |log| == |data| - 1
    ensures log[0] == LogEntry(if folderId.Some? then Info else Error, folder)
    ensures forall j :: 0 <= j < |data| - 2 ==>
              log[j + 1] == LogEntry(if uploaded[j] then Info else Error, JpgName(data[j].photo.fileName))
    ensures CountLevel(log[1..], Info) == CountTrue(uploaded)
    ensures CountLevel(log[1..], Error) == |uploaded| - CountTrue(uploaded)
  {
    folder := FolderName(data[|data| - 2].id, data[|data| - 1].id);
    var entries: seq<LogEntry> := [];
    files := [];
    var n := |data| - 2;
    for j := 0 to n
      invariant |files| == j && |entries| == j
      invariant forall h :: 0 <= h < j ==> files[h] == DriveFile(JpgName(data[h].photo.fileName), folderId)
      invariant forall h :: 0 <= h < j ==>
                  entries[h] == LogEntry(if uploaded[h] then Info else Error, JpgName(data[h].photo.fileName))
    {
      var name := JpgName(data[j].photo.fileName);
      var entry := LogEntry(if uploaded[j] then Info else Error, name);
      files := files + [DriveFile(name, folderId)];
      entries := entries + [entry];
    }
    log := [LogEntry(if folderId.Some? then Info else Error, folder)] + entries;
    assert log[1..] == entries;
    OutcomeLevelsCount(entries, uploaded);
  }
}
