// The validator's backup protocol over the workspace: the file system is a map
// from paths to contents, and the backup of `f` is the entry `f + ".bak"`. The
// syntax check (`node --check`, locally or in a container) is an oracle on the
// file's content.
module Validator {
  import opened Wrappers

  type FileMap = map<string, string>

  /** The path of the backup of `f`. */
  function Bak(f: string): string
  {
    f + ".bak"
  }

  /** The outcome of a syntax check: success, or the checker's error output. */
  datatype CheckResult = Passed | SyntaxError(diagnostic: string)

  /** What the checker reports for a path that does not exist. */
  const MissingFileError := "Cannot find module"

  /** `saveEvolution(f, c)`: back the file up unless a backup already exists, then write `c`.
      Copying a missing file throws, which leaves the workspace untouched (None). */
  function SaveStep(files: FileMap, f: string, c: string): Option<FileMap>
  {
    if Bak(f) in files then Some(files[f := c])
    else if f in files then Some(files[Bak(f) := files[f]][f := c])
    else None
  }

  /** `revert(f)`: copy the backup over the file when there is one; otherwise do nothing. */
  function RevertStep(files: FileMap, f: string): FileMap
  {
    if Bak(f) in files then files[f := files[Bak(f)]] else files
  }

  /** `validateAsync(f)`: the checker's verdict on the file's current content. */
  function Validate(check: string -> CheckResult, files: FileMap, f: string): CheckResult
  {
    if f in files then check(files[f]) else SyntaxError(MissingFileError)
  }

  /** The content a revert of `f` brings back: the existing backup, or else the live file. */
  function Original(files: FileMap, f: string): string
    requires f in files || Bak(f) in files
  {
    if Bak(f) in files then files[Bak(f)] else files[f]
  }

  lemma BakIsOtherPath(f: string)
    ensures Bak(f) != f
  {
    assert |Bak(f)| == |f| + 4;
  }

  /** A save fails exactly when neither the file nor its backup exists. Otherwise the file holds
      the new content and the backup holds what was there before the first save: an existing
      backup is never overwritten. */
  lemma SaveSpec(files: FileMap, f: string, c: string)
    ensures SaveStep(files, f, c).None? <==> f !in files && Bak(f) !in files
    ensures SaveStep(files, f, c).Some? ==>
      var m := SaveStep(files, f, c).value;
      f in m && m[f] == c && Bak(f) in m && m[Bak(f)] == Original(files, f)
  {
    BakIsOtherPath(f);
  }

  /** Saving and reverting `f` leave every other path, including other backups, as it was. */
  lemma SaveRevertFrame(files: FileMap, f: string, c: string)
    ensures SaveStep(files, f, c).Some? ==> SaveStep(files, f, c).value - {f, Bak(f)} == files - {f, Bak(f)}
    ensures RevertStep(files, f) - {f, Bak(f)} == files - {f, Bak(f)}
  {
  }

  /** Revert restores the backup when there is one and is a no-op otherwise; it never touches the
      backup, and reverting twice is the same as reverting once. */
  lemma RevertSpec(files: FileMap, f: string)
    ensures Bak(f) in files ==> var m := RevertStep(files, f);
      f in m && m[f] == files[Bak(f)] && Bak(f) in m && m[Bak(f)] == files[Bak(f)]
    ensures Bak(f) !in files ==> RevertStep(files, f) == files
    ensures RevertStep(RevertStep(files, f), f) == RevertStep(files, f)
  {
    BakIsOtherPath(f);
  }

  /** A run of saves of `f`, one per content, in order; None when one of them throws. */
  function SaveAll(files: FileMap, f: string, contents: seq<string>): Option<FileMap>
    decreases |contents|
  {
    if contents == [] then Some(files)
    else
      match SaveStep(files, f, contents[0])
      case None => None
      case Some(m) => SaveAll(m, f, contents[1..])
  }

  /** Any number of saves followed by a revert give back the content from before the first save:
      the backup taken then is never replaced, and the revert copies it back. Other paths are
      untouched throughout. */
  lemma {:induction false} SavesThenRevert(files: FileMap, f: string, contents: seq<string>)
    requires f in files || Bak(f) in files
    ensures SaveAll(files, f, contents).Some?
    ensures var m := SaveAll(files, f, contents).value;
      && (f in m || Bak(f) in m)
      && Original(m, f) == Original(files, f)
      && var r := RevertStep(m, f);
         f in r && r[f] == Original(files, f) && r - {f, Bak(f)} == files - {f, Bak(f)}
    decreases |contents|
  {
    BakIsOtherPath(f);
    if contents != [] {
      SaveSpec(files, f, contents[0]);
      SaveRevertFrame(files, f, contents[0]);
      var m1 := SaveStep(files, f, contents[0]).value;
      SavesThenRevert(m1, f, contents[1..]);
    }
  }

  /** The workspace as the validator sees it. */
  class Validator {
    var files: FileMap
    const check: string -> CheckResult

    constructor (files: FileMap, check: string -> CheckResult)
      ensures this.files == files && this.check == check
    {
      this.files := files;
      this.check := check;
    }

    /** Returns false when the backup copy throws (no file and no backup). */
    method SaveEvolution(f: string, c: string) returns (saved: bool)
      modifies this
      ensures SaveStep(old(files), f, c) == (if saved then Some(files) else None)
      ensures !saved ==> files == old(files)
    {
      if Bak(f) !in files {
        if f !in files {
          return false;
        }
        files := files[Bak(f) := files[f]];
      }
      files := files[f := c];
      return true;
    }

    method ValidateAsync(f: string) returns (r: CheckResult)
      ensures r == Validate(check, files, f)
    {
      if f !in files {
        return SyntaxError(MissingFileError);
      }
      r := check(files[f]);
    }

    method Revert(f: string)
      modifies this
      ensures files == RevertStep(old(files), f)
    {
      if Bak(f) in files {
        files := files[f := files[Bak(f)]];
      }
    }
  }
}
