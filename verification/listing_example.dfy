/** The folder listing worked out on the listing scenario in `FileUploadControllerTests.kt`:
    five uploads, of which the user's `a.txt`, `sub/b.txt` and `sub2/c.txt` lie under
    `/virtual/docs`; `/virtual/other/d.txt` and another user's `/virtual/docs/e.txt` do not
    belong to the listing. */
module ListingExample {
  import opened Records
  import opened Text
  import opened Ordering
  import opened Listing
  import opened Paths
  import opened Rows
  import opened Repository

  /** A direct file followed by rows of two distinct child folders. */
  lemma ScanOfThree(a: FileRecord, b: FileRecord, c: FileRecord, child: FileRecord -> Child, n: string, x: string, y: string)
    requires child(a) == DirectFile
    requires child(b) == SubFolder(x) && child(c) == SubFolder(y) && x != y
    ensures CollectFolders([a, b, c], child, n) == [FolderEntryFor(n, x), FolderEntryFor(n, y)]
  {
    var fx := FolderEntryFor(n, x);
    assert [a][..0] == [];
    CollectFoldersStep([a], child, n);
    assert [a, b][..1] == [a];
    CollectFoldersStep([a, b], child, n);
    assert [a, b, c][..2] == [a, b];
    assert Names([fx]) == [x];
    CollectFoldersStep([a, b, c], child, n);
  }

  lemma FilesOfThree(a: FileRecord, b: FileRecord, c: FileRecord, child: FileRecord -> Child)
    requires child(a) == DirectFile
    requires child(b) != DirectFile && child(c) != DirectFile
    ensures CollectFiles([a, b, c], child) == [FileEntryFor(a)]
  {
    assert [a][..0] == [];
    assert [a, b][..1] == [a];
    assert CollectFiles([a], child) == [FileEntryFor(a)];
    assert [a, b][..1] == [a];
    assert CollectFiles([a, b], child) == [FileEntryFor(a)];
    assert [a, b, c][..2] == [a, b];
  }

  /** Two entries already in name order stay as they are. */
  lemma SortPairInOrder(e1: FolderEntry, e2: FolderEntry)
    requires LexLe(e1.name, e2.name)
    ensures SortBy([e1, e2], NameKey, false) == [e1, e2]
  {
    assert [e1, e2][1..] == [e2];
    assert [e2][1..] == [];
  }

  lemma SortOne(e: FolderEntry)
    ensures SortBy([e], NameKey, false) == [e]
  {
    assert [e][1..] == [];
  }

  lemma SubBeforeSub2()
    ensures LexLe("sub", "sub2")
  {
  }

  lemma DocsFileClassified(a: FileRecord)
    requires a.filePath == "/virtual/docs/a.txt"
    ensures Classify(a, "/virtual/docs/") == DirectFile
  {
    assert !IsWhitespace("a.txt"[0]);
    assert a.filePath == "/virtual/docs/" + "a.txt";
    ClassifiedAsDirectFile(a, "/virtual/docs/", "a.txt");
  }

  lemma DocsSubClassified(b: FileRecord)
    requires b.filePath == "/virtual/docs/sub/b.txt"
    ensures Classify(b, "/virtual/docs/") == SubFolder("sub")
  {
    assert !IsWhitespace("sub"[0]);
    assert b.filePath == "/virtual/docs/" + "sub" + "/" + "b.txt";
    ClassifiedAsSubFolder(b, "/virtual/docs/", "sub", "b.txt");
  }

  lemma DocsSub2Classified(c: FileRecord)
    requires c.filePath == "/virtual/docs/sub2/c.txt"
    ensures Classify(c, "/virtual/docs/") == SubFolder("sub2")
  {
    assert !IsWhitespace("sub2"[0]);
    assert c.filePath == "/virtual/docs/" + "sub2" + "/" + "c.txt";
    ClassifiedAsSubFolder(c, "/virtual/docs/", "sub2", "c.txt");
  }

  /** `a.txt` is a direct file of `/virtual/docs/`; the other two rows lie in `sub` and `sub2`. */
  lemma DocsRowsClassified(a: FileRecord, b: FileRecord, c: FileRecord)
    requires a.filePath == "/virtual/docs/a.txt"
    requires b.filePath == "/virtual/docs/sub/b.txt"
    requires c.filePath == "/virtual/docs/sub2/c.txt"
    ensures Classify(a, "/virtual/docs/") == DirectFile
    ensures Classify(b, "/virtual/docs/") == SubFolder("sub")
    ensures Classify(c, "/virtual/docs/") == SubFolder("sub2")
  {
    DocsFileClassified(a);
    DocsSubClassified(b);
    DocsSub2Classified(c);
  }

  /** The listing of a direct file and two child folders: the folders in name order, then the
      file. */
  lemma ListingOfThree(a: FileRecord, b: FileRecord, c: FileRecord, child: FileRecord -> Child, n: string, x: string, y: string)
    requires child(a) == DirectFile
    requires child(b) == SubFolder(x) && child(c) == SubFolder(y)
    requires x != y && LexLe(x, y)
    ensures FolderListing([a, b, c], child, n) == [FolderEntryFor(n, x), FolderEntryFor(n, y), FileEntryFor(a)]
  {
    var fx, fy, fa := FolderEntryFor(n, x), FolderEntryFor(n, y), FileEntryFor(a);
    ScanOfThree(a, b, c, child, n, x, y);
    FilesOfThree(a, b, c, child);
    SortPairInOrder(fx, fy);
    SortOne(fa);
    assert FolderListing([a, b, c], child, n) == [fx, fy] + [fa];
  }

  /** Listing `/virtual/docs` gives the folders `sub` and `sub2`, then the file `a.txt` with its
      full path. */
  lemma DocsListing(a: FileRecord, b: FileRecord, c: FileRecord)
    requires a.filePath == "/virtual/docs/a.txt"
    requires b.filePath == "/virtual/docs/sub/b.txt"
    requires c.filePath == "/virtual/docs/sub2/c.txt"
    ensures FolderListing([a, b, c], ChildOf("/virtual/docs/"), "/virtual/docs")
         == [FolderEntryFor("/virtual/docs", "sub"), FolderEntryFor("/virtual/docs", "sub2"), FileEntryFor(a)]
  {
    DocsRowsClassified(a, b, c);
    SubBeforeSub2();
    ListingOfThree(a, b, c, ChildOf("/virtual/docs/"), "/virtual/docs", "sub", "sub2");
  }

  /** The requested folder `/virtual/docs` is already in normal form, and its prefix is
      `/virtual/docs/`. */
  lemma DocsFolderNormalized(folderPath: string)
    requires folderPath == "/virtual/docs"
    ensures NormalizeFolderPath(folderPath) == folderPath
    ensures FolderPrefix(folderPath) == "/virtual/docs/"
  {
    NormalizeFolderPathOfNormal(folderPath);
  }

  /** The prefix scan of the scenario's table: of the five uploads, only the user's three rows
      under `/virtual/docs/` are found; `/virtual/other/d.txt` and the other user's `e.txt` are
      not. */
  lemma DocsSelectOfTable(a: FileRecord, b: FileRecord, c: FileRecord, d: FileRecord, e: FileRecord)
    requires a.userId == b.userId == c.userId == d.userId == "user-folder-list"
    requires e.userId == "another-user"
    requires a.filePath == "/virtual/docs/a.txt"
    requires b.filePath == "/virtual/docs/sub/b.txt"
    requires c.filePath == "/virtual/docs/sub2/c.txt"
    requires d.filePath == "/virtual/other/d.txt"
    requires e.filePath == "/virtual/docs/e.txt"
    ensures Select([a, b, c, d, e], UserAndPathPrefix("user-folder-list", "/virtual/docs/")) == [a, b, c]
  {
    var w := UserAndPathPrefix("user-folder-list", "/virtual/docs/");
    NotPrefixAt("/virtual/docs/", d.filePath, 9);
    assert !Holds(w, d) && !Holds(w, e);
    assert Holds(w, a) && Holds(w, b) && Holds(w, c);
    SelectMatchingFront([a, b, c], [d, e], w);
    assert [a, b, c] + [d, e] == [a, b, c, d, e];
  }

  /** Three rows in order by a key are left as they are by the sort. */
  lemma SortThreeInOrder(x: FileRecord, y: FileRecord, z: FileRecord, key: FileRecord -> string)
    requires LexLe(key(x), key(y)) && LexLe(key(y), key(z))
    ensures SortBy([x, y, z], key, false) == [x, y, z]
  {
    LexLeTransitive(key(x), key(y), key(z));
    assert SortedBy([x, y, z], key, false);
    SortBySorted([x, y, z], key, false);
  }

  /** The three scanned rows are already in path order, so the `ORDER BY file_path` leaves
      them as they are. */
  lemma DocsRowsInPathOrder(a: FileRecord, b: FileRecord, c: FileRecord)
    requires a.filePath == "/virtual/docs/a.txt"
    requires b.filePath == "/virtual/docs/sub/b.txt"
    requires c.filePath == "/virtual/docs/sub2/c.txt"
    ensures SortBy([a, b, c], PathKey, false) == [a, b, c]
  {
    assert a.filePath == "/virtual/docs/" + "a.txt";
    assert b.filePath == "/virtual/docs/" + "sub/b.txt" == "/virtual/docs/sub" + "/b.txt";
    assert c.filePath == "/virtual/docs/sub" + "2/c.txt";
    assert LexLe("a.txt", "sub/b.txt");
    LexLeCommonPrefix("/virtual/docs/", "a.txt", "sub/b.txt");
    assert LexLe("/b.txt", "2/c.txt");
    LexLeCommonPrefix("/virtual/docs/sub", "/b.txt", "2/c.txt");
    SortThreeInOrder(a, b, c, PathKey);
  }

  /** The scenario end to end: a repository holding the five uploads answers the listing of
      `/virtual/docs` for `user-folder-list` with `sub`, `sub2` and then `a.txt`. */
  lemma DocsListingOfTable(repo: FileRepository, folderPath: string,
                            a: FileRecord, b: FileRecord, c: FileRecord, d: FileRecord, e: FileRecord)
    requires repo.rows == [a, b, c, d, e]
    requires a.userId == b.userId == c.userId == d.userId == "user-folder-list"
    requires e.userId == "another-user"
    requires a.filePath == "/virtual/docs/a.txt"
    requires b.filePath == "/virtual/docs/sub/b.txt"
    requires c.filePath == "/virtual/docs/sub2/c.txt"
    requires d.filePath == "/virtual/other/d.txt"
    requires e.filePath == "/virtual/docs/e.txt"
    requires folderPath == "/virtual/docs"
    ensures var normalized := NormalizeFolderPath(folderPath);
            var prefix := FolderPrefix(normalized);
            FolderListing(repo.ListFilesInPathPrefix("user-folder-list", prefix), ChildOf(prefix), normalized)
              == [FolderEntryFor("/virtual/docs", "sub"), FolderEntryFor("/virtual/docs", "sub2"), FileEntryFor(a)]
  {
    DocsFolderNormalized(folderPath);
    DocsSelectOfTable(a, b, c, d, e);
    DocsRowsInPathOrder(a, b, c);
    assert repo.ListFilesInPathPrefix("user-folder-list", "/virtual/docs/") == [a, b, c];
    DocsListing(a, b, c);
  }
}
