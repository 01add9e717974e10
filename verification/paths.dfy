/** The path model of the service (`FileService.kt`): folder and file path normalisation and the
    folder-to-prefix rule. Pure string functions. */
module Paths {
  import opened Text

  /** `normalizeFolderPath`: trim whitespace, keep `"/"`, otherwise drop trailing `/`s, and fall
      back to `"/"` when nothing is left. The root comes out exactly for inputs that are blank
      or only slashes; any other folder path comes out as the trimmed input minus its trailing
      slashes, which is non-empty, starts with a non-blank character and does not end in `/`. */
  function NormalizeFolderPath(path: string): (r: string)
    ensures r == "/" <==> AllChars(Trim(path), '/')
    ensures r != "/" ==>
      && r != []
      && !IsWhitespace(r[0])
      && r[|r| - 1] != '/'
      && |r| <= |Trim(path)|
      && r == Trim(path)[..|r|]
      && AllChars(Trim(path)[|r|..], '/')
  {
    var trimmed := Trim(path);
    if trimmed == "/" then "/"
    else
      var stripped := TrimEndChar(trimmed, '/');
      assert AllChars(trimmed, '/') <==> stripped == [] by {
        if stripped != [] {
          assert trimmed[|stripped| - 1] == stripped[|stripped| - 1];
        } else {
          assert trimmed == trimmed[|stripped|..];
        }
      }
      assert stripped != [] ==> stripped[0] == trimmed[0];
      if IsBlank(stripped) then "/" else stripped
  }

  /** The `LIKE` prefix of a normalised folder (`FileService.kt`, lines 20 and 53): the root is
      its own prefix, any other folder gains one `/`. A prefix always ends in `/`. */
  function FolderPrefix(normalized: string): (p: string)
    ensures EndsWith(p, '/')
    ensures normalized != "/" ==> |p| == |normalized| + 1 && p[..|normalized|] == normalized
  {
    if normalized == "/" then "/" else normalized + "/"
  }

  /** A folder path already in normal form (no whitespace at either end, no trailing `/`) is
      left as it is. */
  lemma NormalizeFolderPathOfNormal(p: string)
    requires p != [] && !IsWhitespace(p[0]) && !IsWhitespace(p[|p| - 1]) && p[|p| - 1] != '/'
    ensures NormalizeFolderPath(p) == p
  {
    TrimOfTrimmed(p);
    var r := NormalizeFolderPath(p);
    assert !AllChars(p, '/');
    assert r == p[..|p|];
  }

  /** The prefix of a normalised folder path is `"/"` only for the root and otherwise ends in
      exactly one `/`: the folder itself never ends in `/`. */
  lemma PrefixOfNormalized(path: string)
    ensures var n := NormalizeFolderPath(path);
            var p := FolderPrefix(n);
            && (p == "/" <==> n == "/")
            && (n != "/" ==> |p| >= 2 && p[|p| - 2] != '/' && p == n + "/")
  {
  }

  /** The virtual path of a child folder (`FileService.kt:73-77`). It is the folder's prefix
      followed by the child's name, for the root and for every other folder alike. */
  function ChildFolderPath(normalized: string, name: string): (r: string)
    ensures r == FolderPrefix(normalized) + name
  {
    if normalized == "/" then "/" + name else normalized + "/" + name
  }

  /** `normalizeFilePath`: a blank path gives the empty trimmed text; a trimmed path ending in
      `/` names a folder, and the file keeps `fileName` inside it; any other trimmed path is
      the full file path. */
  function NormalizeFilePath(path: string, fileName: string): (r: string)
    ensures IsBlank(path) ==> r == []
    ensures !IsBlank(path) && EndsWith(Trim(path), '/') ==> r == Trim(path) + fileName
    ensures !IsBlank(path) && !EndsWith(Trim(path), '/') ==> r == Trim(path)
  {
    var trimmed := Trim(path);
    if IsBlank(trimmed) then trimmed
    else if EndsWith(trimmed, '/') then trimmed + fileName
    else trimmed
  }

  /** A non-blank target normalises to a non-blank path whose front is the trimmed target; a
      folder-style target keeps the file name as the last segment. */
  lemma NormalizeFilePathKeepsName(path: string, fileName: string)
    requires !IsBlank(path)
    ensures var r := NormalizeFilePath(path, fileName);
            && !IsBlank(r)
            && Trim(path) <= r
            && (EndsWith(Trim(path), '/') ==> r[|r| - |fileName|..] == fileName)
  {
    var t := Trim(path);
    var r := NormalizeFilePath(path, fileName);
    assert r[0] == t[0];
  }

  /** A trimmed path that does not end in `/` is its own normal form. */
  lemma NormalizeTrimmedFile(r: string, fileName: string)
    requires r != [] && !IsWhitespace(r[0]) && !IsWhitespace(r[|r| - 1]) && !EndsWith(r, '/')
    ensures NormalizeFilePath(r, fileName) == r
  {
    TrimOfTrimmed(r);
    assert !IsBlank(r) by {
      assert !IsWhitespace(r[0]);
    }
  }

  /** Normalising a normalised path changes nothing, provided the file name neither ends in
      `/` nor in whitespace: moving a file twice to one target gives one path. */
  lemma {:induction false} NormalizeFilePathIdempotent(path: string, fileName: string)
    requires fileName == [] || (!IsWhitespace(fileName[|fileName| - 1]) && fileName[|fileName| - 1] != '/')
    ensures NormalizeFilePath(NormalizeFilePath(path, fileName), fileName) == NormalizeFilePath(path, fileName)
  {
    var t := Trim(path);
    var r := NormalizeFilePath(path, fileName);
    if IsBlank(path) {
      assert IsBlank(r) by {
        assert r == [];
      }
    } else if !EndsWith(t, '/') {
      assert r == t;
      NormalizeTrimmedFile(t, fileName);
    } else if fileName == [] {
      assert r == t by {
        assert t + fileName == t;
      }
      NormalizeIntoFolder(t, fileName);
    } else {
      assert r == t + fileName;
      assert r[0] == t[0];
      assert r[|r| - 1] == fileName[|fileName| - 1];
      NormalizeTrimmedFile(r, fileName);
    }
  }

  /** A trimmed folder-style target: the file keeps its name inside that folder. */
  lemma NormalizeIntoFolder(target: string, fileName: string)
    requires target != [] && !IsWhitespace(target[0]) && EndsWith(target, '/')
    ensures NormalizeFilePath(target, fileName) == target + fileName
  {
    TrimOfTrimmed(target);
  }

  /** The move in the source's test: a folder-style target keeps the file's own name. */
  lemma MoveToFolderExample()
    ensures NormalizeFilePath("/virtual/moved/", "move.txt") == "/virtual/moved/move.txt"
  {
    NormalizeIntoFolder("/virtual/moved/", "move.txt");
  }
}
