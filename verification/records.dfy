/** The values that flow through the virtual-folder layer. */
module Records {

  datatype Option<+T> = None | Some(value: T)

  /** One row of the `files` table, which is also the upload and move response
      (`FileUploadResponse`). `uploadedAt` is the text of the upload instant, as stored;
      `fileSize` is the byte count of the blob. */
  datatype FileRecord = FileRecord(
    id: string,
    userId: string,
    uploadedAt: string,
    fileName: string,
    filePath: string,
    fileSize: int)

  /** The `type` of a folder entry: `"FOLDER"` or `"FILE"`. */
  datatype EntryKind = Folder | File

  /** `FolderEntryResponse`: a derived view of one child of a listed folder. Folder entries
      carry no id, size or timestamp. */
  datatype FolderEntry = FolderEntry(
    kind: EntryKind,
    name: string,
    path: string,
    id: Option<string>,
    fileSize: Option<int>,
    uploadedAt: Option<string>)

  /** `FileDownloadInfo`: what the download needs from the table. */
  datatype DownloadInfo = DownloadInfo(fileName: string, fileSize: int)

  /** `FileDownload`: the blob to stream (named by its id in the storage directory), with the
      name and size for the response headers. */
  datatype FileDownload = FileDownload(blobId: string, fileName: string, fileSize: int)

  /** Sort keys, named so that every use of a key is the same term. */
  function PathKey(r: FileRecord): string { r.filePath }
  function UploadedAtKey(r: FileRecord): string { r.uploadedAt }
  function NameKey(e: FolderEntry): string { e.name }
}
