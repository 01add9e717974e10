/** The older copy of the file service (`FileService.kt` in `com.example.demo`), which has only
    the move, download, listing and upload operations. Its `normalizeFilePath` is the same
    function as `Paths.NormalizeFilePath`, and its repository is taken to behave as
    `Repository.FileRepository`. */
module LegacyService {
  import opened Records
  import opened Paths
  import opened Rows
  import opened Repository
  import opened Service

  class FileService {
    const repo: FileRepository
    /** The ids that have a blob in the storage directory. */
    var blobs: set<string>

    constructor (repo: FileRepository, blobs: set<string>)
      ensures this.repo == repo && this.blobs == blobs
    {
      this.repo := repo;
      this.blobs := blobs;
    }

    predicate Valid()
      reads this, repo
    {
      Consistent(repo.rows, blobs)
    }

    /** `moveFolder`: delegates to the repository's folder move and returns its count. */
    method MoveFolder(fromPath: string, toPath: string) returns (count: int)
      modifies repo
      ensures repo.rows == MoveFolderRows(old(repo.rows), fromPath, toPath)
      ensures count == MovedCount(old(repo.rows), fromPath)
      ensures old(Valid()) ==> Valid()
    {
      count := repo.UpdateFilePathsForMoveFolder(fromPath, toPath);
      if Consistent(old(repo.rows), blobs) {
        MoveFolderKeepsConsistent(old(repo.rows), blobs, fromPath, toPath);
      }
    }

    /** `moveFile`: an unknown id gives none with no update; a known id gets the target
        normalised with its own file name as its only change, and the old row with that path is
        returned. */
    method MoveFile(id: string, filePath: string) returns (moved: Option<FileRecord>)
      modifies repo
      ensures var existing := old(repo.FindFileById(id));
              && (existing.None? ==> moved.None? && repo.rows == old(repo.rows))
              && (existing.Some? ==>
                    var path := NormalizeFilePath(filePath, existing.value.fileName);
                    && moved == Some(existing.value.(filePath := path))
                    && repo.rows == SetPathById(old(repo.rows), id, path))
      ensures old(Valid()) ==> Valid()
    {
      var existing := repo.FindFileById(id);
      if existing.None? {
        return None;
      }
      var normalizedPath := NormalizeFilePath(filePath, existing.value.fileName);

      repo.UpdateFilePath(id, normalizedPath);
      if Consistent(old(repo.rows), blobs) {
        SetPathKeepsConsistent(old(repo.rows), blobs, id, normalizedPath);
      }

      return Some(existing.value.(filePath := normalizedPath));
    }

    /** `uploadFile`: writes the blob under the fresh id, then appends the row (named
        `"unknown"` when no original name is given) and returns it. */
    method UploadFile(userId: string, filePath: string, originalFilename: Option<string>,
                      fileSize: int, fileId: string, uploadedAt: string) returns (response: FileRecord)
      requires forall x :: x in repo.rows ==> x.id != fileId
      modifies this, repo
      ensures response == UploadedRecord(userId, filePath, originalFilename, fileSize, fileId, uploadedAt)
      ensures repo.rows == old(repo.rows) + [response]
      ensures blobs == old(blobs) + {fileId}
      ensures old(Valid()) ==> Valid()
    {
      blobs := blobs + {fileId};

      var originalName := if originalFilename.Some? then originalFilename.value else UnknownName;
      var normalizedPath := NormalizeFilePath(filePath, originalName);

      response := FileRecord(fileId, userId, uploadedAt, originalName, normalizedPath, fileSize);

      repo.InsertFile(response);
      if Consistent(old(repo.rows), old(blobs)) {
        UploadKeepsConsistent(old(repo.rows), old(blobs), response);
      }
    }
  }
}
