/** The folder listing of the service (`listFolderEntries` in `FileService.kt`): a one-level view
    derived from the prefix scan of a folder. This module states what the listing is; the loop
    that builds it is `Service.FileService.ListFolderEntries`. */
module Listing {
  import opened Records
  import opened Text
  import opened Paths
  import opened Ordering

  /** What one scanned row contributes: a child folder, a direct file, or nothing. */
  datatype Child = Nothing | SubFolder(name: string) | DirectFile

  /** The text of `s` before its first `/`. */
  function FirstSegment(s: string): (r: string)
    requires '/' in s
    ensures r + "/" <= s && '/' !in r
  {
    var k := IndexOf(s, '/');
    assert s[..k + 1] == s[..k] + [s[k]];
    s[..k]
  }

  /** The decision taken for one remainder (the path with the folder's prefix removed): a blank
      remainder gives nothing; one with a `/` names the child folder before its first `/`,
      unless that name is blank; any other remainder is a direct file. */
  function ClassifyRemainder(remainder: string): (c: Child)
    ensures '/' !in remainder ==> c == (if IsBlank(remainder) then Nothing else DirectFile)
    ensures '/' in remainder ==>
      var name := FirstSegment(remainder);
      c == (if IsBlank(name) then Nothing else SubFolder(name))
  {
    if IsBlank(remainder) then Nothing
    else
      var slashIndex := IndexOf(remainder, '/');
      if slashIndex >= 0 then
        var name := remainder[..slashIndex];
        if IsBlank(name) then Nothing else SubFolder(name)
      else DirectFile
  }

  function Classify(file: FileRecord, prefix: string): Child
  {
    ClassifyRemainder(RemovePrefix(file.filePath, prefix))
  }

  /** The first `/` of `name + "/" + rest` follows `name` when `name` has none. */
  lemma FirstSlashAfter(name: string, rest: string)
    requires '/' !in name
    ensures IndexOf(name + "/" + rest, '/') == |name|
  {
    var s := name + "/" + rest;
    assert forall j :: 0 <= j < |name| ==> s[j] == name[j] != '/';
    IndexOfAtMost(s, '/', |name|);
  }

  /** A remainder `name + "/" + rest` with a non-blank, slash-free `name` names the child
      folder `name`. */
  lemma RemainderInSubFolder(name: string, rest: string)
    requires !IsBlank(name) && '/' !in name
    ensures ClassifyRemainder(name + "/" + rest) == SubFolder(name)
  {
    var s := name + "/" + rest;
    FirstSlashAfter(name, rest);
    assert s[..|name|] == name;
    assert !IsBlank(s) by {
      var j :| 0 <= j < |name| && !IsWhitespace(name[j]);
      assert s[j] == name[j];
    }
  }

  /** A row `prefix + name + "/" + rest` with a non-blank, slash-free `name` lies in the child
      folder `name`. */
  lemma ClassifiedAsSubFolder(file: FileRecord, prefix: string, name: string, rest: string)
    requires file.filePath == prefix + name + "/" + rest
    requires !IsBlank(name) && '/' !in name
    ensures Classify(file, prefix) == SubFolder(name)
  {
    assert file.filePath == prefix + (name + "/" + rest);
    assert RemovePrefix(file.filePath, prefix) == name + "/" + rest;
    RemainderInSubFolder(name, rest);
  }

  /** A row `prefix + name` with a non-blank, slash-free `name` is a direct file. */
  lemma ClassifiedAsDirectFile(file: FileRecord, prefix: string, name: string)
    requires file.filePath == prefix + name
    requires !IsBlank(name) && '/' !in name
    ensures Classify(file, prefix) == DirectFile
  {
    assert RemovePrefix(file.filePath, prefix) == name;
  }

  /** The entry of a child folder: its name and virtual path, no id, size or timestamp. */
  function FolderEntryFor(normalized: string, name: string): FolderEntry
  {
    FolderEntry(Folder, name, ChildFolderPath(normalized, name), None, None, None)
  }

  /** The entry of a direct file: its name, full path, id, size and upload time. */
  function FileEntryFor(file: FileRecord): FolderEntry
  {
    FolderEntry(File, file.fileName, file.filePath, Some(file.id), Some(file.fileSize), Some(file.uploadedAt))
  }

  /** The keys of the folder map: a name is among them exactly when some entry carries it. */
  function Names(entries: seq<FolderEntry>): (r: seq<string>)
    ensures |r| == |entries| && forall k :: 0 <= k < |entries| ==> r[k] == entries[k].name
    ensures forall n :: n in r <==> exists e :: e in entries && e.name == n
  {
    var r := seq(|entries|, k requires 0 <= k < |entries| => entries[k].name);
    assert forall n :: n in r <==> exists e :: e in entries && e.name == n by {
      forall n | n in r
        ensures exists e :: e in entries && e.name == n
      {
        var k :| 0 <= k < |r| && r[k] == n;
        assert entries[k] in entries;
      }
      forall e | e in entries
        ensures e.name in r
      {
        var k :| 0 <= k < |entries| && entries[k] == e;
        assert r[k] == e.name;
      }
    }
    r
  }

  /** The classification the service lists with: each row's remainder after `prefix`. The
      scan below is stated for any classification of the rows, so that its lemmas do not
      depend on how one row's path is read. */
  function ChildOf(prefix: string): FileRecord -> Child
  {
    file => Classify(file, prefix)
  }

  /** The folder entries after scanning `files` in order: the first row under each child folder
      adds that folder, later ones are ignored (the insertion-ordered map of the source). */
  function CollectFolders(files: seq<FileRecord>, child: FileRecord -> Child, normalized: string): seq<FolderEntry>
  {
    if files == [] then []
    else
      var before := CollectFolders(files[..|files| - 1], child, normalized);
      match child(files[|files| - 1])
      case SubFolder(name) =>
        if name in Names(before) then before else before + [FolderEntryFor(normalized, name)]
      case _ => before
  }

  /** The file entries after scanning `files` in order: one per direct file. */
  function CollectFiles(files: seq<FileRecord>, child: FileRecord -> Child): seq<FolderEntry>
  {
    if files == [] then []
    else
      var before := CollectFiles(files[..|files| - 1], child);
      if child(files[|files| - 1]) == DirectFile then before + [FileEntryFor(files[|files| - 1])]
      else before
  }

  /** The listing: folder entries ordered by name, then file entries ordered by name. */
  function FolderListing(files: seq<FileRecord>, child: FileRecord -> Child, normalized: string): seq<FolderEntry>
  {
    SortBy(CollectFolders(files, child, normalized), NameKey, false)
      + SortBy(CollectFiles(files, child), NameKey, false)
  }

  /** One step of the folder scan: the last row adds its child folder unless already listed. */
  lemma CollectFoldersStep(files: seq<FileRecord>, child: FileRecord -> Child, normalized: string)
    requires files != []
    ensures var before := CollectFolders(files[..|files| - 1], child, normalized);
            var c := child(files[|files| - 1]);
            CollectFolders(files, child, normalized)
              == if c.SubFolder? && c.name !in Names(before) then before + [FolderEntryFor(normalized, c.name)]
                 else before
  {
  }

  /** One step of the scan at position `i`: what the row at `i` adds to both groups. */
  lemma ScanStep(files: seq<FileRecord>, i: int, child: FileRecord -> Child, normalized: string)
    requires 0 <= i < |files|
    ensures var c := child(files[i]);
            var folders := CollectFolders(files[..i], child, normalized);
            var fileEntries := CollectFiles(files[..i], child);
            && CollectFolders(files[..i + 1], child, normalized)
                 == (if c.SubFolder? && c.name !in Names(folders) then folders + [FolderEntryFor(normalized, c.name)]
                     else folders)
            && CollectFiles(files[..i + 1], child)
                 == (if c == DirectFile then fileEntries + [FileEntryFor(files[i])] else fileEntries)
  {
    assert files[..i + 1][..i] == files[..i];
    CollectFoldersStep(files[..i + 1], child, normalized);
  }

  /** A child folder name is a non-blank segment without `/`. */
  lemma SubFolderName(file: FileRecord, prefix: string)
    requires Classify(file, prefix).SubFolder?
    ensures !IsBlank(Classify(file, prefix).name) && '/' !in Classify(file, prefix).name
  {
    var remainder := RemovePrefix(file.filePath, prefix);
    assert '/' in remainder;
  }

  /** Every folder entry is the entry of a child folder (a folder with the child's path and no
      id, size or timestamp) that some scanned row lies under. */
  lemma {:induction false} FolderEntriesFromRows(files: seq<FileRecord>, child: FileRecord -> Child, normalized: string)
    ensures forall e :: e in CollectFolders(files, child, normalized) ==>
      && e == FolderEntryFor(normalized, e.name)
      && exists x :: x in files && child(x) == SubFolder(e.name)
  {
    if files != [] {
      var init := files[..|files| - 1];
      var last := files[|files| - 1];
      var before := CollectFolders(init, child, normalized);
      FolderEntriesFromRows(init, child, normalized);
      CollectFoldersStep(files, child, normalized);
      forall e | e in CollectFolders(files, child, normalized)
        ensures e == FolderEntryFor(normalized, e.name) && exists x :: x in files && child(x) == SubFolder(e.name)
      {
        if e in before {
          var x :| x in init && child(x) == SubFolder(e.name);
          assert x in files;
        } else {
          assert last in files;
        }
      }
    }
  }

  /** A folder entry as the listing makes it: the entry of a child folder whose name is one
      non-blank path segment. */
  predicate ListedFolder(e: FolderEntry, normalized: string)
  {
    e == FolderEntryFor(normalized, e.name) && !IsBlank(e.name) && '/' !in e.name
  }

  /** In the service's listing, every folder entry is the entry of a non-blank, slash-free
      child folder name that some scanned row lies under. */
  lemma FolderEntriesWellFormed(files: seq<FileRecord>, prefix: string, normalized: string)
    ensures forall e :: e in CollectFolders(files, ChildOf(prefix), normalized) ==>
      && ListedFolder(e, normalized)
      && exists x :: x in files && Classify(x, prefix) == SubFolder(e.name)
  {
    FolderEntriesFromRows(files, ChildOf(prefix), normalized);
    forall e | e in CollectFolders(files, ChildOf(prefix), normalized)
      ensures ListedFolder(e, normalized) && exists x :: x in files && Classify(x, prefix) == SubFolder(e.name)
    {
      var x :| x in files && ChildOf(prefix)(x) == SubFolder(e.name);
      SubFolderName(x, prefix);
    }
  }

  /** No two folder entries share a name: the first row under a child folder wins. */
  lemma {:induction false} FolderNamesDistinct(files: seq<FileRecord>, child: FileRecord -> Child, normalized: string)
    ensures var folders := CollectFolders(files, child, normalized);
      forall i, j :: 0 <= i < j < |folders| ==> folders[i].name != folders[j].name
  {
    if files != [] {
      var before := CollectFolders(files[..|files| - 1], child, normalized);
      FolderNamesDistinct(files[..|files| - 1], child, normalized);
      CollectFoldersStep(files, child, normalized);
      var folders := CollectFolders(files, child, normalized);
      forall i, j | 0 <= i < j < |folders|
        ensures folders[i].name != folders[j].name
      {
        if j == |before| {
          assert folders[i] == before[i];
          assert Names(before)[i] == before[i].name;
        }
      }
    }
  }

  /** Every child folder that some scanned row lies under is listed. */
  lemma {:induction false} EveryChildFolderListed(files: seq<FileRecord>, child: FileRecord -> Child, normalized: string, x: FileRecord)
    requires x in files && child(x).SubFolder?
    ensures child(x).name in Names(CollectFolders(files, child, normalized))
  {
    var init := files[..|files| - 1];
    var last := files[|files| - 1];
    var n := child(x).name;
    var before := CollectFolders(init, child, normalized);
    var after := CollectFolders(files, child, normalized);
    CollectFoldersStep(files, child, normalized);
    NamesOfPrefix(before, after);
    var k :| 0 <= k < |files| && files[k] == x;
    if k < |files| - 1 {
      assert init[k] == x;
      EveryChildFolderListed(init, child, normalized, x);
    } else {
      assert x == last;
      if n !in Names(before) {
        assert after == before + [FolderEntryFor(normalized, n)];
        assert Names(after)[|before|] == n;
      }
    }
  }

  /** Names listed before a step stay listed after it. */
  lemma NamesOfPrefix(before: seq<FolderEntry>, after: seq<FolderEntry>)
    requires before <= after
    ensures forall n :: n in Names(before) ==> n in Names(after)
  {
    forall n | n in Names(before)
      ensures n in Names(after)
    {
      var k :| 0 <= k < |before| && Names(before)[k] == n;
      assert Names(after)[k] == n;
    }
  }

  /** The rows that are direct files of the folder, in scan order. */
  function DirectFiles(files: seq<FileRecord>, child: FileRecord -> Child): seq<FileRecord>
  {
    if files == [] then []
    else
      var last := files[|files| - 1];
      DirectFiles(files[..|files| - 1], child) + (if child(last) == DirectFile then [last] else [])
  }

  /** The file entries are exactly the entries of the direct files, one per row and in scan
      order: no de-duplication, whatever their names. */
  lemma {:induction false} FileEntriesOnePerFile(files: seq<FileRecord>, child: FileRecord -> Child)
    ensures var direct := DirectFiles(files, child);
            var entries := CollectFiles(files, child);
            && |entries| == |direct|
            && forall k :: 0 <= k < |direct| ==> entries[k] == FileEntryFor(direct[k])
  {
    if files != [] {
      var init := files[..|files| - 1];
      var last := files[|files| - 1];
      FileEntriesOnePerFile(init, child);
      var direct0 := DirectFiles(init, child);
      var entries0 := CollectFiles(init, child);
      if child(last) == DirectFile {
        assert DirectFiles(files, child) == direct0 + [last];
        assert CollectFiles(files, child) == entries0 + [FileEntryFor(last)];
      } else {
        assert DirectFiles(files, child) == direct0;
        assert CollectFiles(files, child) == entries0;
      }
    }
  }

  /** The direct files are the scanned rows classified as direct files. */
  lemma {:induction false} DirectFilesAreFiles(files: seq<FileRecord>, child: FileRecord -> Child)
    ensures forall x :: x in DirectFiles(files, child) <==> x in files && child(x) == DirectFile
  {
    if files != [] {
      var init := files[..|files| - 1];
      DirectFilesAreFiles(init, child);
      assert files == init + [files[|files| - 1]];
    }
  }

  /** File entries are entries of kind FILE made from scanned direct files. */
  lemma FileEntriesFromDirectFiles(files: seq<FileRecord>, child: FileRecord -> Child)
    ensures forall e :: e in CollectFiles(files, child) ==>
      exists x :: x in DirectFiles(files, child) && e == FileEntryFor(x)
  {
    FileEntriesOnePerFile(files, child);
    var direct := DirectFiles(files, child);
    var entries := CollectFiles(files, child);
    forall e | e in entries
      ensures exists x :: x in direct && e == FileEntryFor(x)
    {
      var k :| 0 <= k < |entries| && entries[k] == e;
      assert direct[k] in direct;
    }
  }

  /** Sorting by name keeps a group's entries, so a group of one kind stays of that kind. */
  lemma SortedGroupKind(s: seq<FolderEntry>, kind: EntryKind)
    requires forall e :: e in s ==> e.kind == kind
    ensures var r := SortBy(s, NameKey, false);
            |r| == |s| && forall k :: 0 <= k < |r| ==> r[k].kind == kind
  {
    var r := SortBy(s, NameKey, false);
    assert |multiset(r)| == |multiset(s)|;
    forall k | 0 <= k < |r|
      ensures r[k].kind == kind
    {
      assert r[k] in multiset(s);
    }
  }

  /** The listing is the folder entries, sorted by name and all of kind FOLDER, followed by the
      file entries, sorted by name and all of kind FILE: folders always come first. */
  lemma ListingGroups(files: seq<FileRecord>, child: FileRecord -> Child, normalized: string)
    ensures var folders := CollectFolders(files, child, normalized);
            var fileEntries := CollectFiles(files, child);
            var listing := FolderListing(files, child, normalized);
            var n := |folders|;
            && |listing| == n + |fileEntries|
            && multiset(listing[..n]) == multiset(folders) && SortedBy(listing[..n], NameKey, false)
            && multiset(listing[n..]) == multiset(fileEntries) && SortedBy(listing[n..], NameKey, false)
            && (forall k :: 0 <= k < n ==> listing[k].kind == Folder)
            && (forall k :: n <= k < |listing| ==> listing[k].kind == File)
  {
    var folders := CollectFolders(files, child, normalized);
    var fileEntries := CollectFiles(files, child);
    var sortedFolders := SortBy(folders, NameKey, false);
    var sortedFiles := SortBy(fileEntries, NameKey, false);
    FolderEntriesFromRows(files, child, normalized);
    SortedGroupKind(folders, Folder);
    FileEntriesFromDirectFiles(files, child);
    SortedGroupKind(fileEntries, File);
    var listing := sortedFolders + sortedFiles;
    assert listing[..|folders|] == sortedFolders && listing[|folders|..] == sortedFiles;
  }

  /** When every scanned row starts with the folder's prefix, every entry's path starts with it
      too; a folder entry's path is the prefix followed by its name. */
  lemma ListingUnderPrefix(files: seq<FileRecord>, child: FileRecord -> Child, prefix: string, normalized: string)
    requires prefix == FolderPrefix(normalized)
    requires forall x :: x in files ==> prefix <= x.filePath
    ensures forall e :: e in FolderListing(files, child, normalized) ==>
      prefix <= e.path && (e.kind == Folder ==> e.path == prefix + e.name)
  {
    var folders := CollectFolders(files, child, normalized);
    var fileEntries := CollectFiles(files, child);
    FolderPathsUnderPrefix(files, child, prefix, normalized);
    FilePathsUnderPrefix(files, child, prefix);
    forall e | e in FolderListing(files, child, normalized)
      ensures e in folders || e in fileEntries
    {
      if e in SortBy(folders, NameKey, false) {
        assert e in multiset(folders);
      } else {
        assert e in SortBy(fileEntries, NameKey, false);
        assert e in multiset(fileEntries);
      }
    }
  }

  lemma FolderPathsUnderPrefix(files: seq<FileRecord>, child: FileRecord -> Child, prefix: string, normalized: string)
    requires prefix == FolderPrefix(normalized)
    ensures forall e :: e in CollectFolders(files, child, normalized) ==>
      e.kind == Folder && e.path == prefix + e.name && prefix <= e.path
  {
    FolderEntriesFromRows(files, child, normalized);
  }

  lemma FilePathsUnderPrefix(files: seq<FileRecord>, child: FileRecord -> Child, prefix: string)
    requires forall x :: x in files ==> prefix <= x.filePath
    ensures forall e :: e in CollectFiles(files, child) ==> e.kind == File && prefix <= e.path
  {
    FileEntriesFromDirectFiles(files, child);
    DirectFilesAreFiles(files, child);
  }
}
