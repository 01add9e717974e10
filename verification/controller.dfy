/** The request gate of the HTTP layer (`FileController.kt`): the blank and equality checks of
    each handler and the mapping of service results to 200, 400 and 404. Each handler is a
    function of the request and of the service operation it may call; a refused request does
    not depend on the service at all. */
module Controller {
  import opened Records
  import opened Text

  datatype Status = Ok | BadRequest | NotFound

  /** A reply: its status and, for 200 only, a body (errors are built without one). */
  datatype Response<T> = Response(status: Status, body: Option<T>)

  predicate WellFormed<T>(r: Response<T>)
  {
    r.body.Some? <==> r.status == Ok
  }

  function Refuse<T>(status: Status): Response<T>
  {
    Response(status, None)
  }

  function Reply<T>(body: T): Response<T>
  {
    Response(Ok, Some(body))
  }

  /** `MoveFolderRequest`. */
  datatype MoveFolderRequest = MoveFolderRequest(fromPath: string, toPath: string)

  /** `MoveFileRequest`. */
  datatype MoveFileRequest = MoveFileRequest(filePath: string)

  /** The paths the folder move passes on: both with their trailing `/`s removed, refused when
      either is then blank or the two are equal. Accepted paths are non-blank, distinct, and
      do not end in `/`. */
  function MoveFolderPaths(request: MoveFolderRequest): (paths: Option<(string, string)>)
    ensures paths.None? <==>
      || IsBlank(TrimEndChar(request.fromPath, '/'))
      || IsBlank(TrimEndChar(request.toPath, '/'))
      || TrimEndChar(request.fromPath, '/') == TrimEndChar(request.toPath, '/')
    ensures paths.Some? ==>
      var (fromPath, toPath) := paths.value;
      && fromPath == TrimEndChar(request.fromPath, '/') && toPath == TrimEndChar(request.toPath, '/')
      && !IsBlank(fromPath) && !IsBlank(toPath) && fromPath != toPath
      && fromPath[|fromPath| - 1] != '/' && toPath[|toPath| - 1] != '/'
  {
    var fromPath := TrimEndChar(request.fromPath, '/');
    var toPath := TrimEndChar(request.toPath, '/');
    if IsBlank(fromPath) || IsBlank(toPath) then None
    else if fromPath == toPath then None
    else Some((fromPath, toPath))
  }

  /** A path of slashes only (the root `/` among them, or the empty path) is refused on either
      side of a folder move. */
  lemma MoveFolderRefusesRoot(request: MoveFolderRequest)
    requires AllChars(request.fromPath, '/') || AllChars(request.toPath, '/')
    ensures MoveFolderPaths(request).None?
  {
    if AllChars(request.fromPath, '/') {
      TrimEndCharOfOnly(request.fromPath, '/');
    } else {
      TrimEndCharOfOnly(request.toPath, '/');
    }
  }

  /** Two spellings of one folder that differ only in trailing `/`s are refused as a move onto
      itself. */
  lemma MoveFolderRefusesSameFolder(folder: string, fromSlashes: string, toSlashes: string)
    requires AllChars(fromSlashes, '/') && AllChars(toSlashes, '/')
    ensures MoveFolderPaths(MoveFolderRequest(folder + fromSlashes, folder + toSlashes)).None?
  {
    TrimEndCharIgnoresTrailing(folder, fromSlashes, '/');
    TrimEndCharIgnoresTrailing(folder, toSlashes, '/');
  }

  /** `moveFolder`: 400 without calling the service when the paths are refused; otherwise 200
      with the count the service returns for the stripped paths. */
  function MoveFolder(request: MoveFolderRequest, moveFolder: (string, string) -> int): (r: Response<int>)
    ensures WellFormed(r) && r.status != NotFound
    ensures r.status == BadRequest <==> MoveFolderPaths(request).None?
    ensures r.status == Ok ==>
      r.body.value == moveFolder(MoveFolderPaths(request).value.0, MoveFolderPaths(request).value.1)
  {
    match MoveFolderPaths(request)
    case None => Refuse(BadRequest)
    case Some((fromPath, toPath)) => Reply(moveFolder(fromPath, toPath))
  }

  /** `moveFile`: 400 for a blank target without calling the service, 404 when the service finds
      no file, and 200 with the moved file otherwise. */
  function MoveFile(id: string, request: MoveFileRequest,
                    moveFile: (string, string) -> Option<FileRecord>): (r: Response<FileRecord>)
    ensures WellFormed(r)
    ensures r.status == BadRequest <==> IsBlank(request.filePath)
    ensures !IsBlank(request.filePath) ==>
      && (r.status == NotFound <==> moveFile(id, request.filePath).None?)
      && (r.status == Ok ==> r.body == moveFile(id, request.filePath))
  {
    if IsBlank(request.filePath) then Refuse(BadRequest)
    else
      match moveFile(id, request.filePath)
      case None => Refuse(NotFound)
      case Some(updated) => Reply(updated)
  }

  /** `deleteFile`: 400 when the user or the path is blank, without calling the service; 404
      when the service deletes nothing; 200 with `deleted: true` otherwise. */
  function DeleteFile(userId: string, filePath: string,
                      deleteFile: (string, string) -> bool): (r: Response<bool>)
    ensures WellFormed(r)
    ensures r.status == BadRequest <==> IsBlank(userId) || IsBlank(filePath)
    ensures r.status == NotFound <==> !IsBlank(userId) && !IsBlank(filePath) && !deleteFile(userId, filePath)
    ensures r.status == Ok ==> r.body == Some(true)
  {
    if IsBlank(userId) || IsBlank(filePath) then Refuse(BadRequest)
    else if !deleteFile(userId, filePath) then Refuse(NotFound)
    else Reply(true)
  }

  /** `listFolderEntries`: 400 when the user or the folder is blank; otherwise 200 with the
      service's entries unchanged. */
  function ListFolderEntries(userId: string, folderPath: string,
                             listFolderEntries: (string, string) -> seq<FolderEntry>): (r: Response<seq<FolderEntry>>)
    ensures WellFormed(r) && r.status != NotFound
    ensures r.status == BadRequest <==> IsBlank(userId) || IsBlank(folderPath)
    ensures r.status == Ok ==> r.body == Some(listFolderEntries(userId, folderPath))
  {
    if IsBlank(userId) || IsBlank(folderPath) then Refuse(BadRequest)
    else Reply(listFolderEntries(userId, folderPath))
  }

  /** `uploadFile`: 400 for a blank user, a blank path or an empty file (`isEmpty`: size 0),
      without calling the service; otherwise 200 with the stored row. */
  function UploadFile(userId: string, filePath: string, fileSize: int,
                      uploadFile: (string, string) -> FileRecord): (r: Response<FileRecord>)
    ensures WellFormed(r) && r.status != NotFound
    ensures r.status == BadRequest <==> IsBlank(userId) || IsBlank(filePath) || fileSize == 0
    ensures r.status == Ok ==> r.body == Some(uploadFile(userId, filePath))
  {
    if IsBlank(userId) then Refuse(BadRequest)
    else if IsBlank(filePath) then Refuse(BadRequest)
    else if fileSize == 0 then Refuse(BadRequest)
    else Reply(uploadFile(userId, filePath))
  }
}
