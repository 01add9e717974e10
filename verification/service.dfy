/** The file service (`FileService.kt` in `com.buchoipark.demo`): the operations of the
    virtual-folder layer over the metadata table and the blob store. The blob store is the set of
    ids that have a blob in the storage directory; a fresh id and the upload instant are given
    by the caller. */
module Service {
  import opened Records
  import opened Text
  import opened Paths
  import opened Rows
  import opened Ordering
  import opened Listing
  import opened Repository

  /** The name stored when the upload carries no original file name. */
  const UnknownName := "unknown"

  /** No two rows share an id (the id is the table's key and the blob's file name). */
  predicate UniqueIds(rows: seq<FileRecord>)
  {
    forall i, j :: 0 <= i < j < |rows| ==> rows[i].id != rows[j].id
  }

  /** Every row has its blob. */
  predicate BlobsCover(rows: seq<FileRecord>, blobs: set<string>)
  {
    forall x :: x in rows ==> x.id in blobs
  }

  /** The state the service keeps: ids are keys and every row has its blob. Blobs without a row
      (left by an upload that stopped between its two writes) are allowed. */
  predicate Consistent(rows: seq<FileRecord>, blobs: set<string>)
  {
    UniqueIds(rows) && BlobsCover(rows, blobs)
  }

  function IdsOf(rows: seq<FileRecord>): set<string>
  {
    set x | x in rows :: x.id
  }

  lemma IdsOfAppend(rows: seq<FileRecord>, x: FileRecord)
    ensures IdsOf(rows + [x]) == IdsOf(rows) + {x.id}
  {
    assert x in rows + [x];
  }

  lemma IdsOfSameRows(a: seq<FileRecord>, b: seq<FileRecord>)
    requires forall x :: x in a <==> x in b
    ensures IdsOf(a) == IdsOf(b)
  {
  }

  /** A selection of a keyed table is keyed. */
  lemma {:induction false} SelectKeepsUniqueIds(rows: seq<FileRecord>, w: Where)
    requires UniqueIds(rows)
    ensures UniqueIds(Select(rows, w))
  {
    if rows != [] {
      var tail := rows[1..];
      assert UniqueIds(tail) by {
        forall i, j | 0 <= i < j < |tail|
          ensures tail[i].id != tail[j].id
        {
          assert tail[i] == rows[i + 1] && tail[j] == rows[j + 1];
        }
      }
      SelectKeepsUniqueIds(tail, w);
      var rest := Select(tail, w);
      forall x | x in rest
        ensures x.id != rows[0].id
      {
        var m :| 0 <= m < |tail| && tail[m] == x;
        assert rows[m + 1] == x;
      }
    }
  }

  /** Removing the rows that satisfy `w` together with their blobs keeps the state consistent:
      since ids are keys, no remaining row loses its blob. */
  lemma DeleteKeepsConsistent(rows: seq<FileRecord>, blobs: set<string>, w: Where)
    requires Consistent(rows, blobs)
    ensures Consistent(Delete(rows, w), blobs - IdsOf(Select(rows, w)))
  {
    SelectKeepsUniqueIds(rows, Not(w));
    forall x | x in Delete(rows, w)
      ensures x.id !in IdsOf(Select(rows, w))
    {
      forall y | y in Select(rows, w)
        ensures y.id != x.id
      {
        var i :| 0 <= i < |rows| && rows[i] == x;
        var j :| 0 <= j < |rows| && rows[j] == y;
        assert i != j;
      }
    }
  }

  /** What the folder delete relies on about the rows it lists first: they carry the ids of the
      rows the delete removes, none listed means none removed, and removing them together with
      their blobs keeps the state consistent. */
  lemma DeleteTargets(rows: seq<FileRecord>, blobs: set<string>, w: Where, targets: seq<FileRecord>)
    requires forall x :: x in targets <==> x in rows && Holds(w, x)
    ensures IdsOf(targets) == IdsOf(Select(rows, w))
    ensures targets == [] <==> Select(rows, w) == []
    ensures targets == [] ==> Delete(rows, w) == rows
    ensures Consistent(rows, blobs) ==> Consistent(Delete(rows, w), blobs - IdsOf(Select(rows, w)))
  {
    IdsOfSameRows(targets, Select(rows, w));
    if targets == [] {
      SelectNone(rows, w);
    } else {
      assert targets[0] in Select(rows, w);
    }
    if Consistent(rows, blobs) {
      DeleteKeepsConsistent(rows, blobs, w);
    }
  }

  /** Removing the rows with one id together with that id's blob keeps the state consistent. */
  lemma DeleteByIdKeepsConsistent(rows: seq<FileRecord>, blobs: set<string>, id: string)
    requires Consistent(rows, blobs)
    ensures Consistent(Delete(rows, IdIs(id)), blobs - {id})
  {
    SelectKeepsUniqueIds(rows, Not(IdIs(id)));
  }

  /** A folder move changes paths only, so the state stays consistent with the same blobs. */
  lemma MoveFolderKeepsConsistent(rows: seq<FileRecord>, blobs: set<string>, fromPath: string, toPath: string)
    requires Consistent(rows, blobs)
    ensures Consistent(MoveFolderRows(rows, fromPath, toPath), blobs)
  {
    var moved := MoveFolderRows(rows, fromPath, toPath);
    forall x | x in moved
      ensures x.id in blobs
    {
      var i :| 0 <= i < |moved| && moved[i] == x;
      assert rows[i] in rows;
    }
  }

  /** A file move changes one path only, so the state stays consistent with the same blobs. */
  lemma SetPathKeepsConsistent(rows: seq<FileRecord>, blobs: set<string>, id: string, filePath: string)
    requires Consistent(rows, blobs)
    ensures Consistent(SetPathById(rows, id, filePath), blobs)
  {
    var moved := SetPathById(rows, id, filePath);
    forall x | x in moved
      ensures x.id in blobs
    {
      var i :| 0 <= i < |moved| && moved[i] == x;
      assert rows[i] in rows;
    }
  }

  /** An upload with a fresh id keeps the state consistent after writing the blob and again after
      inserting the row: stopping between the two leaves an orphan blob, never a row without
      its blob. */
  lemma UploadKeepsConsistent(rows: seq<FileRecord>, blobs: set<string>, record: FileRecord)
    requires Consistent(rows, blobs)
    requires forall x :: x in rows ==> x.id != record.id
    ensures Consistent(rows, blobs + {record.id})
    ensures Consistent(rows + [record], blobs + {record.id})
  {
    var after := rows + [record];
    forall i, j | 0 <= i < j < |after|
      ensures after[i].id != after[j].id
    {
      assert after[i] == rows[i];
      if j == |rows| {
        assert rows[i] in rows;
      }
    }
  }

  /** After inserting a row with a fresh id, looking that id up finds exactly the new row. */
  lemma {:induction false} FreshIdSelectsNewRow(rows: seq<FileRecord>, record: FileRecord)
    requires forall x :: x in rows ==> x.id != record.id
    ensures Select(rows + [record], IdIs(record.id)) == [record]
  {
    if rows == [] {
      assert [record][1..] == [];
    } else {
      assert rows[0] in rows;
      assert (rows + [record])[1..] == rows[1..] + [record];
      FreshIdSelectsNewRow(rows[1..], record);
    }
  }

  /** The row an upload stores: the fresh id and instant, the original name or `"unknown"`, and
      the requested path normalised with that name. */
  function UploadedRecord(userId: string, filePath: string, originalFilename: Option<string>,
                          fileSize: int, fileId: string, uploadedAt: string): FileRecord
  {
    var name := if originalFilename.Some? then originalFilename.value else UnknownName;
    FileRecord(fileId, userId, uploadedAt, name, NormalizeFilePath(filePath, name), fileSize)
  }

  /** An upload without an original name is stored as `"unknown"`, and a folder-style target
      then ends in `"unknown"`. */
  lemma UploadNameFallback(userId: string, filePath: string, fileSize: int, fileId: string, uploadedAt: string)
    ensures var r := UploadedRecord(userId, filePath, None, fileSize, fileId, uploadedAt);
            && r.fileName == "unknown"
            && (!IsBlank(filePath) && EndsWith(Trim(filePath), '/') ==>
                  && r.filePath == Trim(filePath) + "unknown"
                  && r.filePath[|r.filePath| - 7..] == "unknown")
  {
  }

  class FileService {
    const repo: FileRepository
    /** The ids that have a blob in the storage directory. */
    var blobs: set<string>

    constructor (repo: FileRepository, blobs: set<string>)
      ensures this.repo == repo && this.blobs == blobs
    {
      this.repo := repo;
      this.blobs := blobs;
    }

    predicate Valid()
      reads this, repo
    {
      Consistent(repo.rows, blobs)
    }

    /** `deleteFolder`: removes the user's rows under the folder's prefix and exactly their
        blobs, and returns how many rows went. With nothing to delete, nothing changes and the
        result is 0. Rows of other users, rows elsewhere and their blobs stay. */
    method DeleteFolder(userId: string, folderPath: string) returns (deleted: int)
      modifies this, repo
      ensures var w := UserAndPathPrefix(userId, FolderPrefix(NormalizeFolderPath(folderPath)));
              && repo.rows == Delete(old(repo.rows), w)
              && blobs == old(blobs) - IdsOf(Select(old(repo.rows), w))
              && deleted == |Select(old(repo.rows), w)|
      ensures deleted == 0 ==> repo.rows == old(repo.rows) && blobs == old(blobs)
      ensures old(Valid()) ==> Valid()
    {
      ghost var rows0, blobs0 := repo.rows, blobs;
      var normalizedFolderPath := NormalizeFolderPath(folderPath);
      var pathPrefix := FolderPrefix(normalizedFolderPath);
      var w := UserAndPathPrefix(userId, pathPrefix);
      ghost var gone := IdsOf(Select(rows0, w));
      var targets := repo.ListFilesInPathPrefix(userId, pathPrefix);
      DeleteTargets(rows0, blobs0, w, targets);
      if targets == [] {
        assert repo.rows == rows0 && blobs == blobs0;
        return 0;
      }

      deleted := repo.DeleteFilesByUserAndPathPrefix(userId, pathPrefix);
      assert deleted == |Select(rows0, w)| != 0;
      assert repo.rows == Delete(rows0, w);

      RemoveBlobs(targets);
      assert blobs == blobs0 - gone;
    }

    /** The blob removal loop of `deleteFolder`: the blob of each listed row is deleted if
        present. */
    method RemoveBlobs(targets: seq<FileRecord>)
      modifies this
      ensures blobs == old(blobs) - IdsOf(targets)
    {
      for i := 0 to |targets|
        invariant blobs == old(blobs) - IdsOf(targets[..i])
      {
        assert targets[..i + 1] == targets[..i] + [targets[i]];
        IdsOfAppend(targets[..i], targets[i]);
        blobs := blobs - {targets[i].id};
      }
      assert targets[..|targets|] == targets;
    }

    /** `deleteFile`: finds the user's latest row at the trimmed path; without one, nothing
        changes and the result is false. Otherwise that row (every row with its id) and its
        blob are removed, the result is true, and the file can no longer be downloaded. */
    method DeleteFile(userId: string, filePath: string) returns (ok: bool)
      modifies this, repo
      ensures var target := old(repo.FindLatestFileByUserIdAndPath(userId, Trim(filePath)));
              && (ok <==> target.Some?)
              && (target.None? ==> repo.rows == old(repo.rows) && blobs == old(blobs))
              && (target.Some? ==>
                    && repo.rows == Delete(old(repo.rows), IdIs(target.value.id))
                    && blobs == old(blobs) - {target.value.id}
                    && GetDownloadFile(target.value.id).None?)
      ensures old(Valid()) ==> Valid()
    {
      ghost var rows0, blobs0 := repo.rows, blobs;
      var normalizedPath := Trim(filePath);
      var existing := repo.FindLatestFileByUserIdAndPath(userId, normalizedPath);
      if existing.None? {
        return false;
      }
      var id := existing.value.id;
      var deleted := repo.DeleteFileById(id);
      // The row was just found, so the delete removes it: the source's `deleted == 0` branch
      // cannot be taken when the operation runs alone.
      SelectFound(rows0, existing.value);
      assert deleted > 0;
      blobs := blobs - {id};
      ok := true;
      if Consistent(rows0, blobs0) {
        DeleteByIdKeepsConsistent(rows0, blobs0, id);
      }
      assert GetDownloadFile(id).None?;
    }

    /** `listFolderEntries`: scans the user's rows under the folder's prefix in path order,
        collecting the first entry of each child folder and one entry per direct file, and
        returns the folders sorted by name followed by the files sorted by name. */
    method ListFolderEntries(userId: string, folderPath: string) returns (entries: seq<FolderEntry>)
      ensures var normalized := NormalizeFolderPath(folderPath);
              var prefix := FolderPrefix(normalized);
              entries == FolderListing(repo.ListFilesInPathPrefix(userId, prefix), ChildOf(prefix), normalized)
    {
      var normalizedFolderPath := NormalizeFolderPath(folderPath);
      var pathPrefix := FolderPrefix(normalizedFolderPath);
      var files := repo.ListFilesInPathPrefix(userId, pathPrefix);

      var folderEntries: seq<FolderEntry> := [];
      var fileEntries: seq<FolderEntry> := [];

      for i := 0 to |files|
        invariant folderEntries == CollectFolders(files[..i], ChildOf(pathPrefix), normalizedFolderPath)
        invariant fileEntries == CollectFiles(files[..i], ChildOf(pathPrefix))
      {
        var file := files[i];
        ScanStep(files, i, ChildOf(pathPrefix), normalizedFolderPath);
        var remainder := RemovePrefix(file.filePath, pathPrefix);
        if IsBlank(remainder) {
          assert Classify(file, pathPrefix) == Nothing;
          continue;
        }

        var slashIndex := IndexOf(remainder, '/');
        if slashIndex >= 0 {
          var childFolderName := remainder[..slashIndex];
          if IsBlank(childFolderName) {
            assert Classify(file, pathPrefix) == Nothing;
            continue;
          }

          assert Classify(file, pathPrefix) == SubFolder(childFolderName);
          if childFolderName !in Names(folderEntries) {
            folderEntries := folderEntries + [FolderEntryFor(normalizedFolderPath, childFolderName)];
          }
        } else {
          assert Classify(file, pathPrefix) == DirectFile;
          fileEntries := fileEntries + [FileEntryFor(file)];
        }
      }
      assert files[..|files|] == files;

      entries := SortBy(folderEntries, NameKey, false) + SortBy(fileEntries, NameKey, false);
    }

    /** `moveFolder`: delegates to the repository's folder move. */
    method MoveFolder(fromPath: string, toPath: string) returns (count: int)
      modifies repo
      ensures repo.rows == MoveFolderRows(old(repo.rows), fromPath, toPath)
      ensures count == MovedCount(old(repo.rows), fromPath)
      ensures old(Valid()) ==> Valid()
    {
      count := repo.UpdateFilePathsForMoveFolder(fromPath, toPath);
      if Consistent(old(repo.rows), blobs) {
        MoveFolderKeepsConsistent(old(repo.rows), blobs, fromPath, toPath);
      }
    }

    /** `moveFile`: an unknown id gives none and changes nothing. Otherwise only the path of the
        rows with that id changes, to the target normalised with the file's own name, and the
        result is the old row carrying the new path. */
    method MoveFile(id: string, filePath: string) returns (moved: Option<FileRecord>)
      modifies repo
      ensures var existing := old(repo.FindFileById(id));
              && (existing.None? ==> moved.None? && repo.rows == old(repo.rows))
              && (existing.Some? ==>
                    var path := NormalizeFilePath(filePath, existing.value.fileName);
                    && moved == Some(existing.value.(filePath := path))
                    && repo.rows == SetPathById(old(repo.rows), id, path))
      ensures old(Valid()) ==> Valid()
    {
      var existing := repo.FindFileById(id);
      if existing.None? {
        return None;
      }
      var normalizedPath := NormalizeFilePath(filePath, existing.value.fileName);

      repo.UpdateFilePath(id, normalizedPath);
      if Consistent(old(repo.rows), blobs) {
        SetPathKeepsConsistent(old(repo.rows), blobs, id, normalizedPath);
      }

      return Some(existing.value.(filePath := normalizedPath));
    }

    /** `getDownloadFile`: the blob with the row's name and size, when the row exists and its
        blob is present; none otherwise. */
    function GetDownloadFile(id: string): (r: Option<FileDownload>)
      reads this, repo
      ensures r.Some? <==> id in blobs && exists x :: x in repo.rows && x.id == id
      ensures r.Some? ==>
        && r.value.blobId == id
        && exists x :: x in repo.rows && x.id == id && r.value.fileName == x.fileName && r.value.fileSize == x.fileSize
    {
      match repo.FindDownloadInfo(id)
      case None => None
      case Some(info) => if id in blobs then Some(FileDownload(id, info.fileName, info.fileSize)) else None
    }

    /** `uploadFile`: writes the blob under the fresh id, then appends the row, and returns it.
        The file can then be downloaded under that id with its name and size. */
    method UploadFile(userId: string, filePath: string, originalFilename: Option<string>,
                      fileSize: int, fileId: string, uploadedAt: string) returns (response: FileRecord)
      requires forall x :: x in repo.rows ==> x.id != fileId
      modifies this, repo
      ensures response == UploadedRecord(userId, filePath, originalFilename, fileSize, fileId, uploadedAt)
      ensures repo.rows == old(repo.rows) + [response]
      ensures blobs == old(blobs) + {fileId}
      ensures GetDownloadFile(fileId) == Some(FileDownload(fileId, response.fileName, response.fileSize))
      ensures old(Valid()) ==> Valid()
    {
      blobs := blobs + {fileId};

      var originalName := if originalFilename.Some? then originalFilename.value else UnknownName;
      var normalizedPath := NormalizeFilePath(filePath, originalName);

      response := FileRecord(fileId, userId, uploadedAt, originalName, normalizedPath, fileSize);

      repo.InsertFile(response);
      FreshIdSelectsNewRow(old(repo.rows), response);
      assert repo.FindFileById(fileId) == Some(response);
      assert repo.FindDownloadInfo(fileId) == Some(DownloadInfo(response.fileName, response.fileSize));
      if Consistent(old(repo.rows), old(blobs)) {
        UploadKeepsConsistent(old(repo.rows), old(blobs), response);
      }
    }
  }
}
