# Virtual folders over a flat file table — a Dafny model

BuChoiPark is a small file-storage service. Each uploaded file is a blob in a storage directory,
named by a fresh id. It also has one row in a `files` table:
`(id, user_id, uploaded_at, file_name, file_path, file_size)`. Folders are never stored.
Every folder operation derives them from the rows' virtual paths by string-prefix logic:

- listing a folder gives a one-level view of child folders and direct files;
- moving a folder rewrites the front of every path at or under it;
- deleting a folder removes the user's rows under its prefix together with their blobs.

This project models that virtual-folder layer and proves properties of the model:

- `text.dfy` (`Text`): the Kotlin string operations the layer uses. These are `trim`
  (with `Char.isWhitespace`), `trimEnd('/')`, `isBlank`, `indexOf` and `removePrefix`.
- `paths.dfy` (`Paths`): `normalizeFolderPath`, the folder-to-prefix rule and
  `normalizeFilePath`.
- `ordering.dfy` (`Ordering`): character-by-character string order, and a stable insertion sort
  by a key. It stands for both `sortedBy` and the `ORDER BY` clauses.
- `records.dfy` (`Records`): the row (`FileUploadResponse`), the folder entry
  (`FolderEntryResponse`), the download info and the download.
- `rows.dfy` (`Rows`): each SQL statement of the repository as a pure function over the rows,
  kept in table order.
- `repository.dfy` (`Repository`): `FileRepository` as a class. Its field `rows` is the table.
  Queries are functions that read it; updates are methods that reassign it.
- `listing.dfy` (`Listing`): what a folder listing is, as functions over the scanned rows, and
  lemmas about it. The scan is stated for any classification `child` of the rows into child
  folder, direct file or nothing. The service's classification is `ChildOf(prefix)`, the
  decision of `FileService.kt:60-95` for each row's path after the prefix.
- `listing_example.dfy` (`ListingExample`): the listing of the `/virtual/docs` scenario in the
  controller tests, from the five uploaded rows to the three listed entries.
- `service.dfy` (`Service`): `FileService` as a class holding the repository and the blob store.
  The blob store is a `set<string>` of the ids that have a blob. The module also holds the
  invariant the service keeps, `Consistent`: ids are unique, and every row has its blob.
- `legacy_service.dfy` (`LegacyService`): the older `com.example.demo.FileService`.
- `controller.dfy` (`Controller`): the request checks of `FileController` and how they map to
  200, 400 and 404. Each handler is a function of its request and of the service call it makes.

The fresh id and the upload instant are parameters of `UploadFile`. Its precondition says the
id is not yet in the table. This stands in for `UuidCreator.getTimeOrderedEpoch` and
`Instant.now`. Every operation of the service that changes state (`DeleteFolder`, `DeleteFile`,
`MoveFolder`, `MoveFile`, `UploadFile`, and those of the legacy service) ensures
`old(Valid()) ==> Valid()`. The
preservation is proved once, for each kind of table change, by pure lemmas in `Service`.

Some behaviours of the code that are easy to miss:

- The folder move (`FileRepository.kt:46-58`) has no `user_id` condition, so every user's rows
  at or under the folder move (`Rows.MoveFolderRows`,
  `Repository.FileRepository.UpdateFilePathsForMoveFolder`).
- After a folder move, nothing is left at or under the old path whenever neither folder is at
  or under the other (`Rows.MoveFolderEmptiesSource`). The controller also accepts nested moves
  (`FileController.kt:31-39`). A move into the folder's own subtree, such as `/a` to `/a/b`,
  leaves every moved row at or under the old path (`Rows.MoveIntoOwnSubtreeStaysUnder`).
- The folder delete matches only paths that start with the prefix `folder/`
  (`FileService.kt:20`, `FileService.kt:26`), so a row whose path is exactly the folder is kept.
- The folder delete returns 0 when the pre-fetched target list is empty (`FileService.kt:22`),
  not when the bulk delete removes no rows. When the operation runs alone, both tests agree
  (`Service.FileService.DeleteFolder`).
- The controller passes the folder paths to the service with trailing `/`s removed but
  otherwise untrimmed (`FileController.kt:31-41`).

## Model

| member | source | states |
|---|---|---|
| Text.IsWhitespace | BuChoiPark/src/main/kotlin/com/buchoipark/demo/FileService.kt:173 | the characters `trim` and `isBlank` treat as whitespace (JVM `Char.isWhitespace`); `Text.TrimStart`, `Text.TrimEnd` and `Text.Trim` are stated in terms of it |
| Text.IsBlank | BuChoiPark/src/main/kotlin/com/buchoipark/demo/FileService.kt:61-62 | `isBlank`: empty or whitespace only; `Text.Trim` is empty exactly for blank text |
| Text.TrimStart | BuChoiPark/src/main/kotlin/com/buchoipark/demo/FileService.kt:173 | the result is a suffix of the input; everything removed is whitespace; the result does not start with whitespace |
| Text.TrimEnd | BuChoiPark/src/main/kotlin/com/buchoipark/demo/FileService.kt:173 | the result is a prefix of the input; everything removed is whitespace; the result does not end with whitespace |
| Text.Trim | BuChoiPark/src/main/kotlin/com/buchoipark/demo/FileService.kt:173 | `trim` is no longer than its input; it is empty exactly for blank input; otherwise it neither starts nor ends with whitespace; with `Text.TrimIsSlice` this fixes the result |
| Text.TrimIsSlice | BuChoiPark/src/main/kotlin/com/buchoipark/demo/FileService.kt:173 | the trimmed text is a slice of the input at some position, with only whitespace before and after it |
| Text.TrimOfTrimmed | BuChoiPark/src/main/kotlin/com/buchoipark/demo/FileService.kt:161 | text that neither starts nor ends with whitespace is its own trim |
| Text.TrimEndChar | BuChoiPark/src/main/kotlin/com/buchoipark/demo/FileController.kt:31-32 | `trimEnd('/')` gives a prefix of the input; only `/`s were removed; the result does not end in `/` |
| Text.TrimEndCharUnique | BuChoiPark/src/main/kotlin/com/buchoipark/demo/FileController.kt:31-32 | any prefix that is followed only by `/`s and does not itself end in `/` is the result of `trimEnd('/')` |
| Text.TrimEndCharOfOnly | BuChoiPark/src/main/kotlin/com/buchoipark/demo/FileController.kt:31-32 | a text of `/`s only trims to the empty text |
| Text.TrimEndCharIgnoresTrailing | BuChoiPark/src/main/kotlin/com/buchoipark/demo/FileController.kt:31-32 | appending `/`s does not change the result of `trimEnd('/')` |
| Text.IndexOf | BuChoiPark/src/main/kotlin/com/buchoipark/demo/FileService.kt:65 | `indexOf('/')` is -1 exactly when there is no `/`; otherwise it is the position of the first `/` |
| Text.IndexOfAtMost | BuChoiPark/src/main/kotlin/com/buchoipark/demo/FileService.kt:65 | when position `j` holds the character, `indexOf` finds it at or before `j` |
| Text.RemovePrefix | BuChoiPark/src/main/kotlin/com/buchoipark/demo/FileService.kt:60 | `removePrefix` gives the rest after the prefix when the text starts with it, and the text unchanged otherwise |
| Text.EndsWith | BuChoiPark/src/main/kotlin/com/buchoipark/demo/FileService.kt:165 | `endsWith("/")`: non-empty with that last character; `Paths.NormalizeFilePath` and `Paths.NormalizeIntoFolder` branch on it |
| Paths.NormalizeFolderPath | BuChoiPark/src/main/kotlin/com/buchoipark/demo/FileService.kt:172-178 | the result is `/` exactly when the trimmed input is blank or only `/`s; otherwise it is the trimmed input minus its trailing `/`s: non-empty, not starting with whitespace, not ending in `/` |
| Paths.FolderPrefix | BuChoiPark/src/main/kotlin/com/buchoipark/demo/FileService.kt:20 | the prefix always ends in `/`; for a folder other than the root it is the folder followed by one `/` |
| Paths.NormalizeFolderPathOfNormal | BuChoiPark/src/main/kotlin/com/buchoipark/demo/FileService.kt:172-178 | a folder path with no whitespace at either end and no trailing `/` is its own normal form |
| Paths.PrefixOfNormalized | BuChoiPark/src/main/kotlin/com/buchoipark/demo/FileService.kt:53 | for a normalised folder, the prefix is `/` exactly for the root; otherwise it is the folder plus `/` and ends in exactly one `/` |
| Paths.ChildFolderPath | BuChoiPark/src/main/kotlin/com/buchoipark/demo/FileService.kt:73-77 | the child folder's path is the parent's prefix followed by the child's name, at the root and elsewhere alike |
| Paths.NormalizeFilePath | BuChoiPark/src/main/kotlin/com/buchoipark/demo/FileService.kt:160-170 | three cases: blank input gives the empty text; a trimmed input ending in `/` gets the file name appended; any other input gives the trimmed input (the older service's `FileService.kt:77-87` has the same rule) |
| Paths.NormalizeFilePathKeepsName | BuChoiPark/src/main/kotlin/com/buchoipark/demo/FileService.kt:107 | a non-blank target gives a non-blank path that starts with the trimmed target; for a folder-style target the path ends with the file name |
| Paths.NormalizeFilePathIdempotent | BuChoiPark/src/main/kotlin/com/buchoipark/demo/FileService.kt:160-170 | normalising twice equals normalising once, when the file name ends in neither `/` nor whitespace |
| Paths.NormalizeTrimmedFile | BuChoiPark/src/main/kotlin/com/buchoipark/demo/FileService.kt:160-170 | a non-empty path that neither starts nor ends in whitespace and does not end in `/` is its own normal form |
| Paths.NormalizeIntoFolder | BuChoiPark/src/main/kotlin/com/buchoipark/demo/FileService.kt:165-166 | a trimmed target ending in `/` gives the target followed by the file name |
| Paths.MoveToFolderExample | BuChoiPark/src/test/kotlin/com/buchoipark/demo/FileUploadControllerTests.kt:413-431 | moving `move.txt` to `/virtual/moved/` gives `/virtual/moved/move.txt` |
| Ordering.LexLe | BuChoiPark/src/main/kotlin/com/buchoipark/demo/FileService.kt:98 | `String.compareTo` and SQLite's BINARY collation: character by character, a proper prefix first; `Ordering.LexLeReflexive`, `Ordering.LexLeTotal`, `Ordering.LexLeAntisymmetric` and `Ordering.LexLeTransitive` show it is a total order |
| Ordering.LexLeReflexive | BuChoiPark/src/main/kotlin/com/buchoipark/demo/FileService.kt:98 | the string order is reflexive |
| Ordering.LexLeTotal | BuChoiPark/src/main/kotlin/com/buchoipark/demo/FileService.kt:98 | any two strings are comparable |
| Ordering.LexLeAntisymmetric | BuChoiPark/src/main/kotlin/com/buchoipark/demo/FileService.kt:98 | strings ordered both ways are equal |
| Ordering.LexLeTransitive | BuChoiPark/src/main/kotlin/com/buchoipark/demo/FileService.kt:98 | the string order is transitive |
| Ordering.LexLeCommonPrefix | BuChoiPark/src/main/kotlin/com/buchoipark/demo/FileRepository.kt:38 | strings sharing a front compare exactly as what follows it |
| Ordering.InOrderTotal | BuChoiPark/src/main/kotlin/com/buchoipark/demo/FileRepository.kt:16 | in ascending or descending order, one of any two keys may precede the other |
| Ordering.InOrderTransitive | BuChoiPark/src/main/kotlin/com/buchoipark/demo/FileRepository.kt:16 | the ascending and descending orders are transitive |
| Ordering.NotInOrderDistinct | BuChoiPark/src/main/kotlin/com/buchoipark/demo/FileRepository.kt:16 | keys out of order are distinct |
| Ordering.InsertPermutes | BuChoiPark/src/main/kotlin/com/buchoipark/demo/FileService.kt:98 | insertion adds exactly the one element: the result's multiset is the input's plus that element |
| Ordering.InsertSorted | BuChoiPark/src/main/kotlin/com/buchoipark/demo/FileService.kt:98 | insertion keeps a sorted sequence sorted |
| Ordering.InsertKeyRun | BuChoiPark/src/main/kotlin/com/buchoipark/demo/FileService.kt:98 | insertion places the element before the elements with an equal key and keeps the order among the rest |
| Ordering.InsertFrontSorted | BuChoiPark/src/main/kotlin/com/buchoipark/demo/FileService.kt:98 | an element that may precede the head of a sorted sequence keeps it sorted when put in front |
| Ordering.InsertAfterSorted | BuChoiPark/src/main/kotlin/com/buchoipark/demo/FileService.kt:98 | a head that precedes the inserted element stays in front of the sorted rest |
| Ordering.SortBy | BuChoiPark/src/main/kotlin/com/buchoipark/demo/FileService.kt:98 | `sortedBy` and `ORDER BY` give a permutation of the input that is sorted by the key |
| Ordering.SortByStable | BuChoiPark/src/main/kotlin/com/buchoipark/demo/FileService.kt:98 | the sort is stable: the elements sharing any one key keep their input order |
| Ordering.SortBySorted | BuChoiPark/src/main/kotlin/com/buchoipark/demo/FileRepository.kt:38 | sorting a sequence already in order leaves it unchanged |
| Ordering.SortedHead | BuChoiPark/src/main/kotlin/com/buchoipark/demo/FileRepository.kt:16-17 | the head of a sorted sequence may precede every element, so `LIMIT 1` picks an extreme |
| Rows.IsAtOrUnder | BuChoiPark/src/main/kotlin/com/buchoipark/demo/FileRepository.kt:51 | the folder-move match `file_path = from OR file_path LIKE 'from/%'`; `Rows.MoveFolderRewritesSubtree` and `Rows.NotPrefixNotUnder` state what it admits |
| Rows.Holds | BuChoiPark/src/main/kotlin/com/buchoipark/demo/FileRepository.kt:10-58 | the WHERE clauses of the repository's statements, one per condition; `Rows.Select` and `Rows.Delete` are stated in terms of it |
| Rows.Select | BuChoiPark/src/main/kotlin/com/buchoipark/demo/FileRepository.kt:13-15 | `SELECT ... WHERE` holds exactly the rows that satisfy the condition, and no more rows than the table |
| Rows.SelectSplit | BuChoiPark/src/main/kotlin/com/buchoipark/demo/FileRepository.kt:27 | a condition and its negation split the table: the two counts add up to the table size |
| Rows.SelectNone | BuChoiPark/src/main/kotlin/com/buchoipark/demo/FileService.kt:22-23 | when no row matches, selecting finds nothing and deleting keeps the table as it is |
| Rows.SelectFound | BuChoiPark/src/main/kotlin/com/buchoipark/demo/FileService.kt:38-43 | a row of the table is found by its own id, so deleting the row just looked up removes at least one row and the `deleted == 0` branch is not taken |
| Rows.SelectMatchingFront | BuChoiPark/src/main/kotlin/com/buchoipark/demo/FileRepository.kt:32-44 | matching rows followed by non-matching ones select exactly the matching ones |
| Rows.Delete | BuChoiPark/src/main/kotlin/com/buchoipark/demo/FileRepository.kt:25-30 | `DELETE ... WHERE` keeps exactly the rows that do not match; the rows removed are as many as the rows selected |
| Rows.MovedRecord | BuChoiPark/src/main/kotlin/com/buchoipark/demo/FileRepository.kt:50-51 | one row of the folder move: a row at or under the source folder gets the target followed by the rest of its path; `Rows.MoveFolderRewritesSubtree` states this |
| Rows.MoveFolderRows | BuChoiPark/src/main/kotlin/com/buchoipark/demo/FileRepository.kt:46-58 | the folder move over the whole table, for every user; `Rows.MoveFolderRewritesSubtree` and `Rows.MoveFolderEmptiesSource` state what it does |
| Rows.MovedCount | BuChoiPark/src/main/kotlin/com/buchoipark/demo/FileRepository.kt:46-58 | the count the folder move returns: the matched rows; `Repository.FileRepository.UpdateFilePathsForMoveFolder` returns it |
| Rows.MoveFolderRewritesSubtree | BuChoiPark/src/main/kotlin/com/buchoipark/demo/FileRepository.kt:46-58 | a matched row (the folder itself or below it) gets `to` followed by its verbatim rest after `from`, and lands at or under `to`; only its path changes; unmatched rows, of any user, are unchanged |
| Rows.NotPrefixAt | BuChoiPark/src/main/kotlin/com/buchoipark/demo/FileRepository.kt:51 | a text that differs from `b` at one of its own positions is not a prefix of `b` |
| Rows.NotPrefixNotUnder | BuChoiPark/src/main/kotlin/com/buchoipark/demo/FileRepository.kt:51 | a path that the folder is not a prefix of is neither the folder nor below it |
| Rows.RewrittenPathLeavesSource | BuChoiPark/src/main/kotlin/com/buchoipark/demo/FileRepository.kt:50-51 | when neither folder is at or under the other, a rewritten path is no longer at or under the source folder |
| Rows.MoveFolderEmptiesSource | BuChoiPark/src/test/kotlin/com/buchoipark/demo/FileUploadControllerTests.kt:466-495 | after moving a folder to a place that neither contains it nor lies inside it, no row is at or under the old folder |
| Rows.MoveIntoOwnSubtreeStaysUnder | BuChoiPark/src/main/kotlin/com/buchoipark/demo/FileRepository.kt:46-58 | a move into the folder's own subtree leaves every moved row at or under the old path |
| Rows.SetPathById | BuChoiPark/src/main/kotlin/com/buchoipark/demo/FileRepository.kt:72-78 | `UPDATE ... WHERE id`; `Rows.SetPathByIdChangesOnlyThatPath` states that only the path of that id's rows changes |
| Rows.SetPathByIdChangesOnlyThatPath | BuChoiPark/src/main/kotlin/com/buchoipark/demo/FileRepository.kt:72-78 | `UPDATE ... WHERE id` changes only the path of the rows with that id |
| Repository.FileRepository.constructor | BuChoiPark/src/main/kotlin/com/buchoipark/demo/FileRepository.kt:7-9 | the repository starts with the given table |
| Repository.FileRepository.FindLatestFileByUserIdAndPath | BuChoiPark/src/main/kotlin/com/buchoipark/demo/FileRepository.kt:10-23 | none exactly when the user has no row at that exact path; otherwise one such row, uploaded no earlier than any other match |
| Repository.FileRepository.DeleteFileById | BuChoiPark/src/main/kotlin/com/buchoipark/demo/FileRepository.kt:25-30 | the rows with that id are removed, the rest kept in order; the count is the number removed |
| Repository.FileRepository.ListFilesInPathPrefix | BuChoiPark/src/main/kotlin/com/buchoipark/demo/FileRepository.kt:32-44 | exactly the user's rows whose path starts with the prefix, as a permutation of the selection, ordered by path |
| Repository.FileRepository.DeleteFilesByUserAndPathPrefix | BuChoiPark/src/main/kotlin/com/buchoipark/demo/FileService.kt:26 | the user's rows whose path starts with the prefix are removed, the rest kept; the count is the number removed |
| Repository.FileRepository.UpdateFilePathsForMoveFolder | BuChoiPark/src/main/kotlin/com/buchoipark/demo/FileRepository.kt:46-58 | the table becomes the folder-move rewrite of the old one, for rows of every user; the count is the number of matched rows |
| Repository.FileRepository.FindFileById | BuChoiPark/src/main/kotlin/com/buchoipark/demo/FileRepository.kt:60-70 | none exactly when no row has the id; otherwise a row of the table with that id |
| Repository.FileRepository.UpdateFilePath | BuChoiPark/src/main/kotlin/com/buchoipark/demo/FileRepository.kt:72-78 | the rows with the id get the new path, and nothing else changes |
| Repository.FileRepository.FindDownloadInfo | BuChoiPark/src/main/kotlin/com/buchoipark/demo/FileRepository.kt:80-95 | none exactly when no row has the id; otherwise the name and size of such a row |
| Repository.FileRepository.ListFiles | BuChoiPark/src/main/kotlin/com/buchoipark/demo/FileRepository.kt:97-115 | every row when the user is absent or blank, otherwise exactly that user's rows; newest first either way |
| Repository.FileRepository.InsertFile | BuChoiPark/src/main/kotlin/com/buchoipark/demo/FileRepository.kt:117-130 | the one given row is appended, and the existing rows are unchanged |
| Listing.FirstSegment | BuChoiPark/src/main/kotlin/com/buchoipark/demo/FileService.kt:65-67 | the text before the first `/`: followed by `/` it is a prefix of the input, and it holds no `/` |
| Listing.ClassifyRemainder | BuChoiPark/src/main/kotlin/com/buchoipark/demo/FileService.kt:60-95 | a remainder without `/` gives nothing if blank, else a direct file; one with `/` gives the child folder before its first `/`, or nothing if that name is blank |
| Listing.Classify | BuChoiPark/src/main/kotlin/com/buchoipark/demo/FileService.kt:60-95 | the decision for one row: its path after the prefix, classified; `Listing.ClassifiedAsSubFolder`, `Listing.ClassifiedAsDirectFile` and `Listing.SubFolderName` state its cases |
| Listing.FirstSlashAfter | BuChoiPark/src/main/kotlin/com/buchoipark/demo/FileService.kt:65 | in `name/rest`, with no `/` in the name, the first `/` is right after the name |
| Listing.RemainderInSubFolder | BuChoiPark/src/main/kotlin/com/buchoipark/demo/FileService.kt:65-70 | a remainder `name/rest` with a non-blank slash-free name is classified as child folder `name` |
| Listing.ClassifiedAsSubFolder | BuChoiPark/src/main/kotlin/com/buchoipark/demo/FileService.kt:60-70 | a row at `prefix + name + "/" + rest` belongs to child folder `name` |
| Listing.ClassifiedAsDirectFile | BuChoiPark/src/main/kotlin/com/buchoipark/demo/FileService.kt:84-95 | a row at `prefix + name`, with the name non-blank and without `/`, is a direct file |
| Listing.FolderEntryFor | BuChoiPark/src/main/kotlin/com/buchoipark/demo/FileService.kt:73-82 | the `FOLDER` entry of a child folder: its name and its path under the parent; `Listing.FolderEntriesWellFormed` and `Paths.ChildFolderPath` state it |
| Listing.FileEntryFor | BuChoiPark/src/main/kotlin/com/buchoipark/demo/FileService.kt:85-94 | the `FILE` entry of a row: its name, path, id, size and upload time; `Listing.FileEntriesFromDirectFiles` states it |
| Listing.Names | BuChoiPark/src/main/kotlin/com/buchoipark/demo/FileService.kt:72 | the keys of the folder map: one name per entry, in order, and a name is among them exactly when some entry carries it |
| Listing.ChildOf | BuChoiPark/src/main/kotlin/com/buchoipark/demo/FileService.kt:59-95 | the service's classification of the scanned rows by the folder's prefix, which `Service.FileService.ListFolderEntries` lists with |
| Listing.CollectFolders | BuChoiPark/src/main/kotlin/com/buchoipark/demo/FileService.kt:72-83 | the folder map after the scan; `Listing.CollectFoldersStep`, `Listing.FolderEntriesFromRows`, `Listing.FolderNamesDistinct` and `Listing.EveryChildFolderListed` state what it holds |
| Listing.CollectFiles | BuChoiPark/src/main/kotlin/com/buchoipark/demo/FileService.kt:84-95 | the file list after the scan; `Listing.FileEntriesOnePerFile` and `Listing.FileEntriesFromDirectFiles` state what it holds |
| Listing.FolderListing | BuChoiPark/src/main/kotlin/com/buchoipark/demo/FileService.kt:98 | the returned listing; `Listing.ListingGroups`, `Listing.ListingUnderPrefix` and `Service.FileService.ListFolderEntries` state what it is |
| Listing.CollectFoldersStep | BuChoiPark/src/main/kotlin/com/buchoipark/demo/FileService.kt:72-83 | scanning one more row adds its child folder exactly when that name is not yet listed |
| Listing.ScanStep | BuChoiPark/src/main/kotlin/com/buchoipark/demo/FileService.kt:59-96 | one loop iteration: the row adds a new child folder to the folder group, or a direct file to the file group, or nothing |
| Listing.SubFolderName | BuChoiPark/src/main/kotlin/com/buchoipark/demo/FileService.kt:67-70 | a child folder's name is non-blank and holds no `/` |
| Listing.FolderEntriesFromRows | BuChoiPark/src/main/kotlin/com/buchoipark/demo/FileService.kt:72-83 | every folder entry is the entry of its own name under the folder, and some scanned row lies in the child folder of that name |
| Listing.FolderEntriesWellFormed | BuChoiPark/src/main/kotlin/com/buchoipark/demo/FileService.kt:65-83 | every folder entry is the entry of a non-blank, slash-free name, with the child path, no id, size or time; some scanned row lies in that child folder |
| Listing.FolderNamesDistinct | BuChoiPark/src/main/kotlin/com/buchoipark/demo/FileService.kt:72 | folder entry names are pairwise distinct: the first row under a child folder wins |
| Listing.NamesOfPrefix | BuChoiPark/src/main/kotlin/com/buchoipark/demo/FileService.kt:72-83 | a folder name listed before one more scanned row stays listed after it |
| Listing.EveryChildFolderListed | BuChoiPark/src/main/kotlin/com/buchoipark/demo/FileService.kt:72-83 | every child folder that some scanned row lies in is listed |
| Listing.FileEntriesOnePerFile | BuChoiPark/src/main/kotlin/com/buchoipark/demo/FileService.kt:84-95 | the file entries are the entries of the direct files, one per row, in scan order, with no de-duplication; each carries its row's name, path, id, size and time |
| Listing.FileEntriesFromDirectFiles | BuChoiPark/src/main/kotlin/com/buchoipark/demo/FileService.kt:84-95 | every file entry is the entry of some direct file of the scan |
| Listing.SortedGroupKind | BuChoiPark/src/main/kotlin/com/buchoipark/demo/FileService.kt:98 | sorting a group by name keeps every entry's kind |
| Listing.ListingGroups | BuChoiPark/src/main/kotlin/com/buchoipark/demo/FileService.kt:98 | the listing is the folder group, a permutation sorted by name, followed by the file group, a permutation sorted by name; all folders come before all files |
| Listing.ListingUnderPrefix | BuChoiPark/src/main/kotlin/com/buchoipark/demo/FileService.kt:51-99 | every entry's path starts with the folder's prefix, and a folder entry's path is the prefix followed by its name |
| Listing.FolderPathsUnderPrefix | BuChoiPark/src/main/kotlin/com/buchoipark/demo/FileService.kt:73-81 | folder entries are folders whose path is the prefix followed by the name |
| Listing.FilePathsUnderPrefix | BuChoiPark/src/main/kotlin/com/buchoipark/demo/FileService.kt:85-94 | file entries are files whose path starts with the prefix |
| Listing.DirectFilesAreFiles | BuChoiPark/src/main/kotlin/com/buchoipark/demo/FileService.kt:84-95 | a row is among the direct files exactly when it is a scanned row classified as a direct file |
| ListingExample.ScanOfThree | BuChoiPark/src/test/kotlin/com/buchoipark/demo/FileUploadControllerTests.kt:175-199 | a direct file then rows in two distinct child folders give those two folder entries, in scan order |
| ListingExample.FilesOfThree | BuChoiPark/src/test/kotlin/com/buchoipark/demo/FileUploadControllerTests.kt:175-199 | among those three rows only the direct file gives a file entry |
| ListingExample.SortPairInOrder | BuChoiPark/src/test/kotlin/com/buchoipark/demo/FileUploadControllerTests.kt:175-199 | two entries already in name order are left in place by the sort |
| ListingExample.SortOne | BuChoiPark/src/test/kotlin/com/buchoipark/demo/FileUploadControllerTests.kt:175-199 | a group of one entry is left as it is by the sort |
| ListingExample.SubBeforeSub2 | BuChoiPark/src/test/kotlin/com/buchoipark/demo/FileUploadControllerTests.kt:175-199 | `sub` sorts before `sub2` |
| ListingExample.DocsFileClassified | BuChoiPark/src/test/kotlin/com/buchoipark/demo/FileUploadControllerTests.kt:175-199 | under `/virtual/docs/`, the row at `/virtual/docs/a.txt` is a direct file |
| ListingExample.DocsSubClassified | BuChoiPark/src/test/kotlin/com/buchoipark/demo/FileUploadControllerTests.kt:175-199 | under `/virtual/docs/`, the row at `/virtual/docs/sub/b.txt` lies in child folder `sub` |
| ListingExample.DocsSub2Classified | BuChoiPark/src/test/kotlin/com/buchoipark/demo/FileUploadControllerTests.kt:175-199 | under `/virtual/docs/`, the row at `/virtual/docs/sub2/c.txt` lies in child folder `sub2` |
| ListingExample.DocsRowsClassified | BuChoiPark/src/test/kotlin/com/buchoipark/demo/FileUploadControllerTests.kt:175-199 | under `/virtual/docs/`, `a.txt` is a direct file, `sub/b.txt` lies in `sub` and `sub2/c.txt` lies in `sub2` |
| ListingExample.ListingOfThree | BuChoiPark/src/test/kotlin/com/buchoipark/demo/FileUploadControllerTests.kt:175-199 | such three rows list as the two folders in name order followed by the file |
| ListingExample.DocsListing | BuChoiPark/src/test/kotlin/com/buchoipark/demo/FileUploadControllerTests.kt:175-199 | the prefix scan of `/virtual/docs` lists `sub`, `sub2`, then `a.txt` |
| ListingExample.DocsFolderNormalized | BuChoiPark/src/test/kotlin/com/buchoipark/demo/FileUploadControllerTests.kt:181-184 | the requested folder `/virtual/docs` is its own normal form, with the prefix `/virtual/docs/` |
| ListingExample.DocsSelectOfTable | BuChoiPark/src/test/kotlin/com/buchoipark/demo/FileUploadControllerTests.kt:175-179 | of the five uploads, the prefix scan finds exactly the user's three rows under `/virtual/docs/`: `/virtual/other/d.txt` and the other user's `e.txt` are not found |
| ListingExample.SortThreeInOrder | BuChoiPark/src/test/kotlin/com/buchoipark/demo/FileUploadControllerTests.kt:175-177 | three rows in key order are left as they are by the sort |
| ListingExample.DocsRowsInPathOrder | BuChoiPark/src/test/kotlin/com/buchoipark/demo/FileUploadControllerTests.kt:175-177 | the three scanned rows are already in path order |
| ListingExample.DocsListingOfTable | BuChoiPark/src/test/kotlin/com/buchoipark/demo/FileUploadControllerTests.kt:175-199 | a repository holding the five uploads lists `/virtual/docs` for the user as `sub`, `sub2`, then `a.txt` with its full path |
| Service.Consistent | BuChoiPark/src/main/kotlin/com/buchoipark/demo/FileService.kt:138-155 | the state the service keeps: ids are unique and every row has its blob, since the blob is written before the row; the `...KeepsConsistent` lemmas show each table change preserves it |
| Service.IdsOfAppend | BuChoiPark/src/main/kotlin/com/buchoipark/demo/FileService.kt:28-31 | the ids of the listed rows grow by the id of one more row |
| Service.IdsOfSameRows | BuChoiPark/src/main/kotlin/com/buchoipark/demo/FileService.kt:21 | rows with the same members have the same ids |
| Service.SelectKeepsUniqueIds | BuChoiPark/src/main/kotlin/com/buchoipark/demo/FileRepository.kt:27 | a selection from a table with unique ids has unique ids |
| Service.DeleteKeepsConsistent | BuChoiPark/src/main/kotlin/com/buchoipark/demo/FileService.kt:26-31 | deleting the matching rows and their blobs keeps every remaining row with its blob, and ids unique |
| Service.DeleteTargets | BuChoiPark/src/main/kotlin/com/buchoipark/demo/FileService.kt:21-31 | the rows listed before the delete carry the ids of exactly the rows the delete removes; none listed means none removed and the table unchanged; removing them with their blobs keeps the state consistent |
| Service.DeleteByIdKeepsConsistent | BuChoiPark/src/main/kotlin/com/buchoipark/demo/FileService.kt:40-46 | deleting one id's rows and its blob keeps the state consistent |
| Service.MoveFolderKeepsConsistent | BuChoiPark/src/main/kotlin/com/buchoipark/demo/FileService.kt:101-103 | a folder move keeps the state consistent with the same blobs |
| Service.SetPathKeepsConsistent | BuChoiPark/src/main/kotlin/com/buchoipark/demo/FileService.kt:109 | a file move keeps the state consistent with the same blobs |
| Service.UploadKeepsConsistent | BuChoiPark/src/main/kotlin/com/buchoipark/demo/FileService.kt:139-155 | with a fresh id, the state is consistent after the blob write and again after the row insert; stopping in between leaves an orphan blob, never a row without its blob |
| Service.FreshIdSelectsNewRow | BuChoiPark/src/main/kotlin/com/buchoipark/demo/FileService.kt:155 | after inserting a row with a fresh id, looking up that id finds exactly the new row |
| Service.UploadNameFallback | BuChoiPark/src/main/kotlin/com/buchoipark/demo/FileService.kt:143-144 | every upload without an original name is stored under the name `unknown`; a folder-style target then gets a path ending in `unknown` |
| Service.UploadedRecord | BuChoiPark/src/main/kotlin/com/buchoipark/demo/FileService.kt:143-153 | the row an upload stores; `Service.FileService.UploadFile` and `Service.UploadNameFallback` state what it holds |
| Service.FileService.constructor | BuChoiPark/src/main/kotlin/com/buchoipark/demo/FileService.kt:13-17 | the service starts with the given repository and blob store |
| Service.FileService.DeleteFolder | BuChoiPark/src/main/kotlin/com/buchoipark/demo/FileService.kt:18-34 | removes exactly the user's rows under the normalised folder's prefix and exactly their blobs, and returns how many rows went; with none, nothing changes and the result is 0; other rows and blobs stay; consistency is kept |
| Service.FileService.RemoveBlobs | BuChoiPark/src/main/kotlin/com/buchoipark/demo/FileService.kt:28-31 | the blobs of exactly the listed rows are removed if present |
| Service.FileService.DeleteFile | BuChoiPark/src/main/kotlin/com/buchoipark/demo/FileService.kt:36-49 | true exactly when the user has a row at the trimmed path; then the latest such row goes with its blob and can no longer be downloaded; otherwise nothing changes; consistency is kept |
| Service.FileService.ListFolderEntries | BuChoiPark/src/main/kotlin/com/buchoipark/demo/FileService.kt:51-99 | the loop returns exactly the listing of the user's rows under the normalised folder's prefix, whose shape the `Listing` lemmas state |
| Service.FileService.MoveFolder | BuChoiPark/src/main/kotlin/com/buchoipark/demo/FileService.kt:101-103 | the table becomes the folder-move rewrite for every user; the count is the number of matched rows; consistency is kept |
| Service.FileService.MoveFile | BuChoiPark/src/main/kotlin/com/buchoipark/demo/FileService.kt:105-112 | unknown id: none, and nothing changes; known id: only that id's path changes, to the target normalised with the file's own name, and the old row with the new path is returned |
| Service.FileService.GetDownloadFile | BuChoiPark/src/main/kotlin/com/buchoipark/demo/FileService.kt:114-125 | a download exists exactly when a row has the id and its blob is present; it names that blob, with the row's name and size |
| Service.FileService.UploadFile | BuChoiPark/src/main/kotlin/com/buchoipark/demo/FileService.kt:131-158 | the blob is added, then one row with the fresh id, the name or `unknown`, and the normalised path is appended and returned; the file is then downloadable with that name and size; consistency is kept |
| LegacyService.FileService.constructor | BuChoiPark/src/src/main/kotlin/com/example/demo/FileService.kt:12-17 | the service starts with the given repository and blob store |
| LegacyService.FileService.MoveFolder | BuChoiPark/src/src/main/kotlin/com/example/demo/FileService.kt:18-20 | delegates the folder move and returns its count; consistency is kept |
| LegacyService.FileService.MoveFile | BuChoiPark/src/src/main/kotlin/com/example/demo/FileService.kt:22-29 | unknown id: none with no update; known id: only that id's path changes, normalised with the existing name, and the old row with that path is returned |
| LegacyService.FileService.UploadFile | BuChoiPark/src/src/main/kotlin/com/example/demo/FileService.kt:48-75 | the blob is added before the row; the name falls back to `unknown`; the stored path is the path normalised with that name; consistency is kept |
| Controller.MoveFolderPaths | BuChoiPark/src/main/kotlin/com/buchoipark/demo/FileController.kt:31-39 | refused exactly when either path is blank after `trimEnd('/')` or the two are equal; accepted paths are stripped, non-blank, distinct and do not end in `/` |
| Controller.MoveFolderRefusesRoot | BuChoiPark/src/main/kotlin/com/buchoipark/demo/FileController.kt:31-36 | a path of `/`s only, the root among them, is refused on either side |
| Controller.MoveFolderRefusesSameFolder | BuChoiPark/src/main/kotlin/com/buchoipark/demo/FileController.kt:37-39 | two spellings of one folder that differ only in trailing `/`s are refused |
| Controller.MoveFolder | BuChoiPark/src/main/kotlin/com/buchoipark/demo/FileController.kt:29-44 | 400 exactly when the paths are refused; otherwise 200 with the service's count for the stripped paths; never 404 |
| Controller.MoveFile | BuChoiPark/src/main/kotlin/com/buchoipark/demo/FileController.kt:46-59 | 400 exactly for a blank target; otherwise 404 exactly when the service finds nothing, and 200 with the moved row |
| Controller.DeleteFile | BuChoiPark/src/main/kotlin/com/buchoipark/demo/FileController.kt:87-102 | 400 exactly when user or path is blank; 404 exactly when the service deletes nothing; 200 with `deleted: true` otherwise |
| Controller.ListFolderEntries | BuChoiPark/src/main/kotlin/com/buchoipark/demo/FileController.kt:104-114 | 400 exactly when user or folder is blank; otherwise 200 with the service's entries unchanged |
| Controller.UploadFile | BuChoiPark/src/main/kotlin/com/buchoipark/demo/FileController.kt:116-135 | 400 exactly for a blank user, a blank path or an empty file; otherwise 200 with the stored row |

## Left out

- HTTP plumbing is not modelled. This covers routing, `ResponseEntity` building, multipart
  parsing, the health endpoint, and the download endpoint's streaming and headers
  (`FileController.kt:61-80`). A refused request carries no body; a reply carries the service
  result.
- `FileController.listFiles` (`FileController.kt:82-85`) and `FileService.listFiles`
  (`FileService.kt:127-129`) pass the repository's `listFiles` straight through. Only
  `Repository.FileRepository.ListFiles` is modelled.
- The legacy service's `getDownloadFile` and `listFiles` are not modelled separately. They are
  the same text as the new service's (`Service.FileService.GetDownloadFile`).
- Physical blob I/O (`Files.copy`, `createDirectories`, `deleteIfExists`, `exists`) is modelled
  as a set of ids: insert, remove if present, membership. Blob contents are not modelled, so
  the model cannot state that a download returns the uploaded bytes.
- Id generation and the clock (`UuidCreator.getTimeOrderedEpoch`, `Instant.now`) become
  parameters of `UploadFile`, with a precondition that the id is new to the table.
- `LIKE 'x%'` is read as "starts with x". SQLite's `%` and `_` wildcards inside user paths and
  its ASCII case-insensitivity are not modelled.
- Strings are sequences of characters. The difference between UTF-16 units (Kotlin `length`,
  `compareTo`) and SQLite's character counts in `substr` is not modelled.
- Statement atomicity and concurrent requests are not modelled. Each operation runs alone.
- Service.FileService.DeleteFile: the `deleted == 0` branch (`FileService.kt:41-43`) has no
  outcome of its own. The method keeps the count the delete returns and proves it positive:
  run alone, the row just found is always deleted. The branch only matters under a concurrent
  delete, which is not modelled.
- `ORDER BY` leaves ties in an unspecified order. The model takes the stable order of the
  scan, which is one admissible order. `FindLatestFileByUserIdAndPath` and `ListFiles` state
  only sortedness and membership, which hold for any tie order.
- `uploaded_at` is compared as stored text, as the query does. The model does not show that
  text order matches time order for the instants the service writes.
- `fileSize` is an unbounded integer. The 64-bit `Long` range is not modelled, since sizes
  only pass through.
- Repository.FileRepository.FindFileById: with duplicate ids it returns the first row in table
  order; the contract says only "some row with that id". Under the service's invariant ids are
  unique, so the two agree.
- `SqliteConfig.kt` (datasource and directory setup) and the build files are not part of this
  model.
