/** The statements of the metadata repository (`FileRepository.kt`) as functions over the rows of
    the `files` table, in table order. `LIKE 'x%'` is read as "starts with x". */
module Rows {
  import opened Records
  import opened Text

  /** The `WHERE` clauses the repository uses, as data. */
  datatype Where =
    | UserAndPath(userId: string, filePath: string)        // user_id = ? AND file_path = ?
    | UserAndPathPrefix(userId: string, prefix: string)    // user_id = ? AND file_path LIKE 'prefix%'
    | IdIs(id: string)                                     // id = ?
    | UserIs(userId: string)                               // user_id = ?
    | AtOrUnder(folder: string)                            // file_path = ? OR file_path LIKE 'folder/%'
    | Not(w: Where)

  /** `path` is the folder path itself or lies below it. */
  predicate IsAtOrUnder(path: string, folder: string)
  {
    path == folder || folder + "/" <= path
  }

  predicate Holds(w: Where, r: FileRecord)
  {
    match w
    case UserAndPath(u, p) => r.userId == u && r.filePath == p
    case UserAndPathPrefix(u, prefix) => r.userId == u && prefix <= r.filePath
    case IdIs(id) => r.id == id
    case UserIs(u) => r.userId == u
    case AtOrUnder(folder) => IsAtOrUnder(r.filePath, folder)
    case Not(v) => !Holds(v, r)
  }

  /** `SELECT ... WHERE w` before any `ORDER BY`: the rows satisfying `w`, in table order. */
  function Select(rows: seq<FileRecord>, w: Where): (s: seq<FileRecord>)
    ensures |s| <= |rows|
    ensures forall x :: x in s <==> x in rows && Holds(w, x)
  {
    if rows == [] then []
    else (if Holds(w, rows[0]) then [rows[0]] else []) + Select(rows[1..], w)
  }

  /** Every row satisfies `w` or its negation: the two selections split the table. */
  lemma {:induction false} SelectSplit(rows: seq<FileRecord>, w: Where)
    ensures |Select(rows, w)| + |Select(rows, Not(w))| == |rows|
  {
    if rows != [] {
      SelectSplit(rows[1..], w);
    }
  }

  /** When no row satisfies `w`, selecting by `w` finds nothing and deleting by `w` keeps the
      table as it is. */
  lemma {:induction false} SelectNone(rows: seq<FileRecord>, w: Where)
    requires forall x :: x in rows ==> !Holds(w, x)
    ensures Select(rows, w) == []
    ensures Select(rows, Not(w)) == rows
  {
    if rows != [] {
      assert rows[0] in rows;
      SelectNone(rows[1..], w);
      assert rows == [rows[0]] + rows[1..];
    }
  }

  /** A row of the table is found by its own id, so deleting by that id removes at least one
      row. */
  lemma SelectFound(rows: seq<FileRecord>, x: FileRecord)
    requires x in rows
    ensures |Select(rows, IdIs(x.id))| > 0
  {
    assert x in Select(rows, IdIs(x.id));
  }

  /** A stretch of matching rows followed by a stretch of non-matching ones selects the first. */
  lemma {:induction false} SelectMatchingFront(s: seq<FileRecord>, t: seq<FileRecord>, w: Where)
    requires forall x :: x in s ==> Holds(w, x)
    requires forall x :: x in t ==> !Holds(w, x)
    ensures Select(s + t, w) == s
  {
    if s == [] {
      assert s + t == t;
      SelectNone(t, w);
    } else {
      var u := s + t;
      assert u[0] == s[0] && u[1..] == s[1..] + t;
      assert Holds(w, s[0]) by {
        assert s[0] in s;
      }
      assert forall x :: x in s[1..] ==> Holds(w, x) by {
        forall x | x in s[1..] ensures Holds(w, x) {
          assert x in s;
        }
      }
      SelectMatchingFront(s[1..], t, w);
      assert Select(u, w) == [s[0]] + Select(s[1..] + t, w);
      assert s == [s[0]] + s[1..];
    }
  }

  /** `DELETE FROM files WHERE w`: the rows that remain, in table order. */
  function Delete(rows: seq<FileRecord>, w: Where): (r: seq<FileRecord>)
    ensures forall x :: x in r <==> x in rows && !Holds(w, x)
    ensures |rows| - |r| == |Select(rows, w)|
  {
    SelectSplit(rows, w);
    Select(rows, Not(w))
  }

  /** One row after the folder move: a row at or under `fromPath` gets `toPath` followed by
      what came after `fromPath` (`substr(file_path, len(from) + 1)`, 1-based); nothing else
      changes. */
  function MovedRecord(r: FileRecord, fromPath: string, toPath: string): FileRecord
  {
    if IsAtOrUnder(r.filePath, fromPath) then r.(filePath := toPath + r.filePath[|fromPath|..]) else r
  }

  /** `UPDATE files SET file_path = to || substr(...) WHERE file_path = from OR file_path LIKE
      'from/%'`. The statement has no owner condition: rows of every user move. */
  function MoveFolderRows(rows: seq<FileRecord>, fromPath: string, toPath: string): seq<FileRecord>
  {
    seq(|rows|, i requires 0 <= i < |rows| => MovedRecord(rows[i], fromPath, toPath))
  }

  /** The folder move replaces the `fromPath` front of each matched path by `toPath` and keeps
      the rest verbatim (empty, or starting at the `/` after `fromPath`), so the row lands at
      or under `toPath`. Unmatched rows, and every field other than the path, are unchanged,
      whoever owns the row. */
  lemma MoveFolderRewritesSubtree(rows: seq<FileRecord>, fromPath: string, toPath: string, i: int)
    requires 0 <= i < |rows|
    ensures var moved := MoveFolderRows(rows, fromPath, toPath);
            var old_ := rows[i];
            && |moved| == |rows|
            && (IsAtOrUnder(old_.filePath, fromPath) ==>
                  var rest := old_.filePath[|fromPath|..];
                  && old_.filePath == fromPath + rest
                  && (rest == [] || rest[0] == '/')
                  && moved[i].filePath == toPath + rest
                  && IsAtOrUnder(moved[i].filePath, toPath)
                  && moved[i] == old_.(filePath := moved[i].filePath))
            && (!IsAtOrUnder(old_.filePath, fromPath) ==> moved[i] == old_)
  {
    var p := rows[i].filePath;
    if IsAtOrUnder(p, fromPath) {
      var rest := p[|fromPath|..];
      assert p == fromPath + rest;
      if rest != [] {
        assert (fromPath + "/")[|fromPath|] == p[|fromPath|];
        assert toPath + "/" <= toPath + rest;
      }
    }
  }

  /** The number the folder move reports: the rows it matched. */
  function MovedCount(rows: seq<FileRecord>, fromPath: string): nat
  {
    |Select(rows, AtOrUnder(fromPath))|
  }

  /** `a` is not a prefix of `b` when they differ at a position of `a`. */
  lemma NotPrefixAt(a: string, b: string, k: int)
    requires 0 <= k < |a| && (k >= |b| || a[k] != b[k])
    ensures !(a <= b)
  {
  }

  /** A path that `folder` is not a prefix of is neither the folder nor under it. */
  lemma NotPrefixNotUnder(path: string, folder: string)
    requires !(folder <= path)
    ensures !IsAtOrUnder(path, folder)
  {
  }

  /** A rewritten path leaves the source folder whenever neither folder lies at or under the
      other. */
  lemma RewrittenPathLeavesSource(path: string, fromPath: string, toPath: string)
    requires IsAtOrUnder(path, fromPath)
    requires !IsAtOrUnder(toPath, fromPath) && !IsAtOrUnder(fromPath, toPath)
    ensures !IsAtOrUnder(toPath + path[|fromPath|..], fromPath)
  {
    var rest := path[|fromPath|..];
    var moved := toPath + rest;
    assert path == fromPath + rest;
    assert rest != [] ==> rest[0] == '/' by {
      if rest != [] {
        assert (fromPath + "/")[|fromPath|] == path[|fromPath|];
      }
    }
    if |toPath| >= |fromPath| {
      if toPath[..|fromPath|] != fromPath {
        var k :| 0 <= k < |fromPath| && toPath[k] != fromPath[k];
        NotPrefixAt(fromPath, moved, k);
      } else if |toPath| > |fromPath| {
        assert toPath[|fromPath|] != '/' by {
          assert !(fromPath + "/" <= toPath);
          assert toPath[..|fromPath| + 1] == toPath[..|fromPath|] + [toPath[|fromPath|]];
        }
        assert moved[|fromPath|] == toPath[|fromPath|];
        NotPrefixAt(fromPath + "/", moved, |fromPath|);
        assert moved != fromPath;
      }
    } else {
      if fromPath[..|toPath|] != toPath {
        var k :| 0 <= k < |toPath| && toPath[k] != fromPath[k];
        NotPrefixAt(fromPath, moved, k);
      } else {
        assert fromPath[|toPath|] != '/' by {
          assert !(toPath + "/" <= fromPath);
          assert fromPath[..|toPath| + 1] == fromPath[..|toPath|] + [fromPath[|toPath|]];
        }
        if rest == [] {
          NotPrefixAt(fromPath, moved, |toPath|);
        } else {
          assert moved[|toPath|] == '/';
          NotPrefixAt(fromPath, moved, |toPath|);
        }
      }
      NotPrefixNotUnder(moved, fromPath);
    }
  }

  /** Moving a folder to a place that is neither inside it nor around it leaves nothing at or
      under the old folder. */
  lemma MoveFolderEmptiesSource(rows: seq<FileRecord>, fromPath: string, toPath: string)
    requires !IsAtOrUnder(toPath, fromPath) && !IsAtOrUnder(fromPath, toPath)
    ensures Select(MoveFolderRows(rows, fromPath, toPath), AtOrUnder(fromPath)) == []
  {
    var moved := MoveFolderRows(rows, fromPath, toPath);
    forall x | x in moved
      ensures !IsAtOrUnder(x.filePath, fromPath)
    {
      var i :| 0 <= i < |moved| && moved[i] == x;
      if IsAtOrUnder(rows[i].filePath, fromPath) {
        RewrittenPathLeavesSource(rows[i].filePath, fromPath, toPath);
      }
    }
    SelectNone(moved, AtOrUnder(fromPath));
  }
  /** A move into the folder's own subtree (`/a` to `/a/b`) leaves every moved row at or under
      the old path. */
  lemma MoveIntoOwnSubtreeStaysUnder(rows: seq<FileRecord>, fromPath: string, toPath: string, i: int)
    requires IsAtOrUnder(toPath, fromPath)
    requires 0 <= i < |rows| && IsAtOrUnder(rows[i].filePath, fromPath)
    ensures IsAtOrUnder(MoveFolderRows(rows, fromPath, toPath)[i].filePath, fromPath)
  {
    MoveFolderRewritesSubtree(rows, fromPath, toPath, i);
    var rest := rows[i].filePath[|fromPath|..];
    var p := toPath + rest;
    if toPath == fromPath {
      if rest != [] {
        assert (fromPath + "/")[|fromPath|] == p[|fromPath|];
        assert fromPath + "/" <= p;
      }
    } else {
      assert fromPath + "/" <= toPath <= p;
    }
  }


  /** `UPDATE files SET file_path = ? WHERE id = ?`. */
  function SetPathById(rows: seq<FileRecord>, id: string, filePath: string): (r: seq<FileRecord>)
  {
    seq(|rows|, i requires 0 <= i < |rows| =>
      if rows[i].id == id then rows[i].(filePath := filePath) else rows[i])
  }

  /** Only the path of the rows with that id changes. */
  lemma SetPathByIdChangesOnlyThatPath(rows: seq<FileRecord>, id: string, filePath: string, i: int)
    requires 0 <= i < |rows|
    ensures var r := SetPathById(rows, id, filePath);
            && |r| == |rows|
            && (rows[i].id == id ==> r[i] == rows[i].(filePath := filePath))
            && (rows[i].id != id ==> r[i] == rows[i])
  {
  }
}
