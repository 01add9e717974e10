/** The metadata repository (`FileRepository.kt`): the `files` table held in memory, its queries
    as functions that read it and its updates as methods that change it. */
module Repository {
  import opened Records
  import opened Rows
  import opened Ordering
  import opened Text

  class FileRepository {
    /** The rows of the `files` table, in insertion order. */
    var rows: seq<FileRecord>

    constructor (initial: seq<FileRecord>)
      ensures rows == initial
    {
      rows := initial;
    }

    /** `findLatestFileByUserIdAndPath`: none exactly when the user has no row at that exact
        path; otherwise one of those rows, uploaded no earlier than any other (timestamps
        compared as stored text). */
    function FindLatestFileByUserIdAndPath(userId: string, filePath: string): (r: Option<FileRecord>)
      reads this
      ensures r.None? <==> forall x :: x in rows ==> !(x.userId == userId && x.filePath == filePath)
      ensures r.Some? ==> r.value in rows && r.value.userId == userId && r.value.filePath == filePath
      ensures r.Some? ==>
        forall x :: x in rows && x.userId == userId && x.filePath == filePath ==>
          LexLe(x.uploadedAt, r.value.uploadedAt)
    {
      var found := Select(rows, UserAndPath(userId, filePath));
      var newestFirst := SortBy(found, UploadedAtKey, true);
      assert forall x :: x in found <==> x in newestFirst by {
        assert forall x :: x in found <==> x in multiset(found);
      }
      if newestFirst == [] then None
      else
        SortedHead(newestFirst, UploadedAtKey, true);
        assert newestFirst[0] in newestFirst;
        Some(newestFirst[0])
    }

    /** `deleteFileById`: every row with that id is removed, the others stay in order, and the
        count is the number removed. */
    method DeleteFileById(id: string) returns (count: int)
      modifies this
      ensures rows == Delete(old(rows), IdIs(id))
      ensures count == |Select(old(rows), IdIs(id))|
    {
      var before := |rows|;
      rows := Delete(rows, IdIs(id));
      count := before - |rows|;
    }

    /** `listFilesInPathPrefix`: exactly the user's rows whose path starts with the prefix,
        ordered by path. */
    function ListFilesInPathPrefix(userId: string, pathPrefix: string): (r: seq<FileRecord>)
      reads this
      ensures forall x :: x in r <==> x in rows && x.userId == userId && pathPrefix <= x.filePath
      ensures multiset(r) == multiset(Select(rows, UserAndPathPrefix(userId, pathPrefix)))
      ensures SortedBy(r, PathKey, false)
    {
      var found := Select(rows, UserAndPathPrefix(userId, pathPrefix));
      var r := SortBy(found, PathKey, false);
      assert forall x :: x in found <==> x in r by {
        assert forall x :: x in found <==> x in multiset(found);
      }
      r
    }

    /** The prefix delete the service calls (`deleteFilesByUserAndPathPrefix`): the user's rows
        whose path starts with the prefix are removed, and the count is the number removed. */
    method DeleteFilesByUserAndPathPrefix(userId: string, pathPrefix: string) returns (count: int)
      modifies this
      ensures rows == Delete(old(rows), UserAndPathPrefix(userId, pathPrefix))
      ensures count == |Select(old(rows), UserAndPathPrefix(userId, pathPrefix))|
    {
      var before := |rows|;
      rows := Delete(rows, UserAndPathPrefix(userId, pathPrefix));
      count := before - |rows|;
    }

    /** `updateFilePathsForMoveFolder`: every row at or under `fromPath`, of any user, has that
        front of its path replaced by `toPath`; the count is the number of such rows. */
    method UpdateFilePathsForMoveFolder(fromPath: string, toPath: string) returns (count: int)
      modifies this
      ensures rows == MoveFolderRows(old(rows), fromPath, toPath)
      ensures count == MovedCount(old(rows), fromPath)
    {
      count := MovedCount(rows, fromPath);
      rows := MoveFolderRows(rows, fromPath, toPath);
    }

    /** `findFileById`: none exactly when no row has that id; otherwise a row with that id. */
    function FindFileById(id: string): (r: Option<FileRecord>)
      reads this
      ensures r.None? <==> forall x :: x in rows ==> x.id != id
      ensures r.Some? ==> r.value in rows && r.value.id == id
    {
      var found := Select(rows, IdIs(id));
      if found == [] then None
      else
        assert found[0] in found;
        Some(found[0])
    }

    /** `updateFilePath`: the rows with that id get the new path; nothing else changes. */
    method UpdateFilePath(id: string, filePath: string)
      modifies this
      ensures rows == SetPathById(old(rows), id, filePath)
    {
      rows := SetPathById(rows, id, filePath);
    }

    /** `findDownloadInfo`: the name and size of the row with that id, if any. */
    function FindDownloadInfo(id: string): (r: Option<DownloadInfo>)
      reads this
      ensures r.None? <==> forall x :: x in rows ==> x.id != id
      ensures r.Some? ==> exists x :: x in rows && x.id == id && r.value == DownloadInfo(x.fileName, x.fileSize)
    {
      match FindFileById(id)
      case None => None
      case Some(x) => Some(DownloadInfo(x.fileName, x.fileSize))
    }

    /** `listFiles`: every row when no user or a blank one is given, otherwise only that
        user's rows; newest first either way. */
    function ListFiles(userId: Option<string>): (r: seq<FileRecord>)
      reads this
      ensures (userId.None? || IsBlank(userId.value)) ==> multiset(r) == multiset(rows)
      ensures (userId.Some? && !IsBlank(userId.value)) ==>
        multiset(r) == multiset(Select(rows, UserIs(userId.value)))
        && forall x :: x in r <==> x in rows && x.userId == userId.value
      ensures SortedBy(r, UploadedAtKey, true)
    {
      if userId.None? || IsBlank(userId.value) then
        SortBy(rows, UploadedAtKey, true)
      else
        var found := Select(rows, UserIs(userId.value));
        var r := SortBy(found, UploadedAtKey, true);
        assert forall x :: x in found <==> x in r by {
          assert forall x :: x in found <==> x in multiset(found);
        }
        r
    }

    /** `insertFile`: one row carrying the six given fields is added; the others are kept. */
    method InsertFile(record: FileRecord)
      modifies this
      ensures rows == old(rows) + [record]
    {
      rows := rows + [record];
    }
  }
}
