/**
 * The check, change, check-again steps with which `File` and `Dir` touch the
 * disk: each PHP built-in call is guarded by `is_file`/`is_dir` tests before
 * and after, and a failed test throws the matching exception.
 */
module Steps {
  import opened Wrappers
  import opened Errors
  import opened Storage

  /** Renaming a file moves that one entry and overwrites nothing but a file. */
  lemma RenamedFileEntry(t: Tree, locked: set<string>, a: string, b: string)
    requires CanRename(t, locked, a, b) && t[a] == IsFile
    ensures Renamed(t, locked, a, b) == (t - {a})[b := IsFile]
  {
    var r := Renamed(t, locked, a, b);
    var s := t - {b};
    assert forall q :: q in (t - {a})[b := IsFile] <==> q in r by {
      forall q ensures q in (t - {a})[b := IsFile] <==> q in r {
        if q != a && q != b {
          assert q in t ==> q in s && MoveKey(q, a, b, false) == q;
          if q in r {
            var q' :| q' in s && MoveKey(q', a, b, false) == q;
          }
        }
      }
    }
    forall q | q in r ensures r[q] == (t - {a})[b := IsFile][q] {
      var q' :| q' in s && MoveKey(q', a, b, false) == q;
    }
  }

  /** `unlink` of a file that must exist before and be gone after (`RemoveFileException`). */
  method UnlinkChecked(dk: Disk, p: string) returns (r: Outcome<Error>)
    modifies dk
    ensures r.Pass? <==> IsFileAt(old(dk.entries), p) && p !in dk.locked
    ensures !IsFileAt(old(dk.entries), p) ==> r == Fail(RemoveFile(p, Missing))
    ensures IsFileAt(old(dk.entries), p) && p in dk.locked ==> r == Fail(RemoveFile(p, Present))
    ensures dk.entries == if r.Pass? then old(dk.entries) - {p} else old(dk.entries)
  {
    if !IsFileAt(dk.entries, p) {
      return Fail(RemoveFile(p, Missing));
    }
    dk.Unlink(p);
    if IsFileAt(dk.entries, p) {
      return Fail(RemoveFile(p, Present));
    }
    r := Pass;
  }

  /** `FileUpload::move` to `p`; a failed move throws `UploadFileException`. */
  method MoveChecked(dk: Disk, p: string) returns (r: Outcome<Error>)
    modifies dk
    ensures r.Pass? <==> p !in dk.locked && !IsDirAt(old(dk.entries), p)
    ensures r.Fail? ==> r == Fail(UploadFile)
    ensures dk.entries == if r.Pass? then old(dk.entries)[p := IsFile] else old(dk.entries)
  {
    var ok := dk.MoveUpload(p);
    if !ok {
      return Fail(UploadFile);
    }
    r := Pass;
  }

  /** `copy` of an existing file to a place that holds no file yet (`RenameFileException`). */
  method CopyChecked(dk: Disk, a: string, b: string) returns (r: Outcome<Error>)
    modifies dk
    ensures r.Pass? <==> IsFileAt(old(dk.entries), a) && b !in old(dk.entries) && b !in dk.locked
    ensures !IsFileAt(old(dk.entries), a) ==> r == Fail(RenameFile(a, Missing))
    ensures IsFileAt(old(dk.entries), a) && IsFileAt(old(dk.entries), b) ==> r == Fail(RenameFile(b, Present))
    ensures IsFileAt(old(dk.entries), a) && !IsFileAt(old(dk.entries), b) && !r.Pass? ==> r == Fail(RenameFile(b, Missing))
    ensures dk.entries == if r.Pass? then old(dk.entries)[b := IsFile] else old(dk.entries)
  {
    if !IsFileAt(dk.entries, a) {
      return Fail(RenameFile(a, Missing));
    }
    if IsFileAt(dk.entries, b) {
      return Fail(RenameFile(b, Present));
    }
    dk.Copy(a, b);
    if !IsFileAt(dk.entries, b) {
      return Fail(RenameFile(b, Missing));
    }
    r := Pass;
  }

  /**
   * `rename` of a file guarded as in `File::preFlush` and, on file paths,
   * `Dir::rename`: the source must be a file and the target none before; the
   * source must be gone and the target a file after. `wrap` is the exception
   * class the caller throws.
   */
  method RenameChecked(dk: Disk, a: string, b: string, wrap: (string, Why) -> Error) returns (r: Outcome<Error>)
    modifies dk
    ensures r.Pass? <==> IsFileAt(old(dk.entries), a) && b !in old(dk.entries) && a !in dk.locked && b !in dk.locked
    ensures !IsFileAt(old(dk.entries), a) ==> r == Fail(wrap(a, Missing))
    ensures IsFileAt(old(dk.entries), a) && IsFileAt(old(dk.entries), b) ==> r == Fail(wrap(b, Present))
    ensures IsFileAt(old(dk.entries), a) && !IsFileAt(old(dk.entries), b) && !r.Pass? ==> r == Fail(wrap(a, Present))
    ensures dk.entries == if r.Pass? then (old(dk.entries) - {a})[b := IsFile] else old(dk.entries)
  {
    if !IsFileAt(dk.entries, a) {
      return Fail(wrap(a, Missing));
    }
    if IsFileAt(dk.entries, b) {
      return Fail(wrap(b, Present));
    }
    ghost var t0 := dk.entries;
    dk.Rename(a, b);
    if CanRename(t0, dk.locked, a, b) {
      RenamedFileEntry(t0, dk.locked, a, b);
    }
    if IsFileAt(dk.entries, a) {
      return Fail(wrap(a, Present));
    }
    if !IsFileAt(dk.entries, b) {
      return Fail(wrap(b, Missing));
    }
    r := Pass;
  }

  /** `Dir::remove`: `rmdir` of a directory that must exist before and be gone after. */
  method RmdirChecked(dk: Disk, p: string) returns (r: Outcome<Error>)
    modifies dk
    ensures r.Pass? <==> IsDirAt(old(dk.entries), p) && p !in dk.locked && forall q :: q in old(dk.entries) ==> !Below(q, p)
    ensures !IsDirAt(old(dk.entries), p) ==> r == Fail(RemoveDirectory(p, Missing))
    ensures IsDirAt(old(dk.entries), p) && !r.Pass? ==> r == Fail(RemoveDirectory(p, Present))
    ensures dk.entries == if r.Pass? then old(dk.entries) - {p} else old(dk.entries)
  {
    if !IsDirAt(dk.entries, p) {
      return Fail(RemoveDirectory(p, Missing));
    }
    dk.Rmdir(p);
    if IsDirAt(dk.entries, p) {
      return Fail(RemoveDirectory(p, Present));
    }
    r := Pass;
  }

  /** `Dir::create`: `mkdir` where no directory is yet, which must be a directory after. */
  method MkdirChecked(dk: Disk, p: string) returns (r: Outcome<Error>)
    modifies dk
    ensures r.Pass? <==> p !in old(dk.entries) && p !in dk.locked
    ensures IsDirAt(old(dk.entries), p) ==> r == Fail(CreateDirectory(p, Present))
    ensures !IsDirAt(old(dk.entries), p) && !r.Pass? ==> r == Fail(CreateDirectory(p, Missing))
    ensures dk.entries == if r.Pass? then old(dk.entries)[p := IsDir] else old(dk.entries)
  {
    if IsDirAt(dk.entries, p) {
      return Fail(CreateDirectory(p, Present));
    }
    dk.Mkdir(p);
    if !IsDirAt(dk.entries, p) {
      return Fail(CreateDirectory(p, Missing));
    }
    r := Pass;
  }
}
