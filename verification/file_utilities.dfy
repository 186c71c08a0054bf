/**
 * bin/file_utilities.py: the Windows long-path prefixes and the decision of
 * `copy_newer_file`, which copies one file over another when it is missing
 * or older by more than a second, in one direction or (sync mode) in both.
 * The file system is not modelled: whether each file exists, its
 * modification time and the outcome of the actual copy are inputs.
 */
module FileUtilities {
  import opened PyStr

  /** `\\?\`, the prefix of every long path. */
  const LongPrefix: string := "\\\\?\\"
  /** `\\?\UNC\`, the prefix of a long UNC path. */
  const LongUncPrefix: string := "\\\\?\\UNC\\"
  /** `\\`, the prefix of a UNC path. */
  const UncPrefix: string := "\\\\"

  /** `is_long_path`: the path already carries `\\?\UNC\` or `\\?\`. */
  predicate IsLongPath(path: string)
  {
    StartsWith(path, LongUncPrefix) || StartsWith(path, LongPrefix)
  }

  /** The first test is subsumed by the second: a path is long exactly when it starts with `\\?\`. */
  lemma IsLongPathIff(path: string)
    ensures IsLongPath(path) <==> StartsWith(path, LongPrefix)
  {
    if StartsWith(path, LongUncPrefix) {
      assert path[..4] == path[..8][..4] == LongPrefix;
    }
  }

  /** `make_long_path`: a long path as it is, `\\rest` as `\\?\UNC\rest`, any other path behind `\\?\`. */
  function MakeLongPath(path: string): (r: string)
    ensures IsLongPath(r)
    ensures IsLongPath(path) ==> r == path
  {
    if IsLongPath(path) then path
    else if StartsWith(path, UncPrefix) then
      var r := LongUncPrefix + path[2..];
      assert r[..|LongUncPrefix|] == LongUncPrefix;
      r
    else
      var r := LongPrefix + path;
      assert r[..|LongPrefix|] == LongPrefix;
      r
  }

  /** Applying `make_long_path` to its own result changes nothing. */
  lemma MakeLongPathIdempotent(path: string)
    ensures MakeLongPath(MakeLongPath(path)) == MakeLongPath(path)
  {
  }

  /** Undoes the prefixing: `\\?\UNC\rest` back to `\\rest`, `\\?\rest` back to `rest`. */
  function ShortPath(path: string): (r: string)
  {
    if StartsWith(path, LongUncPrefix) then UncPrefix + path[|LongUncPrefix|..]
    else if StartsWith(path, LongPrefix) then path[|LongPrefix|..]
    else path
  }

  /**
   * A path that is not yet long can be recovered from its long form, unless
   * it begins with `UNC\`: then `\\?\` + path reads as a long UNC path.
   */
  lemma ShortPathOfLong(path: string)
    requires !IsLongPath(path)
    requires !StartsWith(path, "UNC\\")
    ensures ShortPath(MakeLongPath(path)) == path
  {
    var r := MakeLongPath(path);
    if StartsWith(path, UncPrefix) {
      assert r == LongUncPrefix + path[2..];
      assert r[|LongUncPrefix|..] == path[2..];
      assert UncPrefix + path[2..] == path[..2] + path[2..] == path;
    } else {
      assert r == LongPrefix + path;
      assert r[..4] == LongPrefix && r[4..] == path;
      if |path| >= 4 {
        assert r[..8][4..] == path[..4];
        assert LongUncPrefix[4..] == "UNC\\";
        assert path[..4] != "UNC\\";
      }
      assert !StartsWith(r, LongUncPrefix);
    }
  }

  /** The `RESULT_*` values of `FileUtilitiesConstants`. */
  datatype CopyResult = ResultError | ResultCopied | ResultSkipped

  datatype Side = One | Two

  /** What `copy_newer_file` decides before copying. */
  datatype Decision = Abort | Skip | CopyFrom(source: Side)

  /** `a` is newer than `b` by more than the one-second tolerance. */
  predicate NewerBy(a: real, b: real)
  {
    b < a && a - b > 1.0
  }

  /**
   * The decision as a flat table: abort without a source (in sync mode,
   * without either file); copy toward a missing file; otherwise copy from
   * the newer file (only file one may be the source outside sync mode) or skip.
   */
  function Decide(oneExists: bool, oneTime: real, twoExists: bool, twoTime: real, syncMode: bool): Decision
  {
    if !oneExists && (!syncMode || !twoExists) then Abort
    else if !twoExists then CopyFrom(One)
    else if !oneExists then CopyFrom(Two)
    else if NewerBy(oneTime, twoTime) then CopyFrom(One)
    else if syncMode && NewerBy(twoTime, oneTime) then CopyFrom(Two)
    else Skip
  }

  /** The value `copy_newer_file` returns for a decision, `copied` being what `copy_file` reports. */
  function Outcome(d: Decision, dryRun: bool, copied: CopyResult): CopyResult
  {
    match d
    case Abort => ResultError
    case Skip => ResultSkipped
    case CopyFrom(_) => if dryRun then ResultCopied else copied
  }

  /**
   * `copy_newer_file`: the branches of the source, setting `proceed`, the
   * result and the source/target swap step by step.  `copied` stands for the
   * result of `copy_file`, which only runs when a copy is decided and
   * `dryRun` is off; `copies` says whether it ran.
   */
  method CopyNewerFile(onePath: string, twoPath: string, oneExists: bool, oneTime: real,
                       twoExists: bool, twoTime: real, syncMode: bool, dryRun: bool, copied: CopyResult)
      returns (result: CopyResult, sourcePath: string, targetPath: string, copies: bool)
    ensures var d := Decide(oneExists, oneTime, twoExists, twoTime, syncMode);
      result == Outcome(d, dryRun, copied) &&
      (copies <==> d.CopyFrom? && !dryRun) &&
      (d.CopyFrom? ==> (sourcePath, targetPath) == if d.source == One then (onePath, twoPath) else (twoPath, onePath))
  {
    sourcePath := onePath;
    targetPath := twoPath;
    var proceed := false;
    copies := false;
    result := ResultError;
    if !syncMode {
      if !oneExists {
        return;
      } else {
        if !twoExists {
          proceed := true;
        } else {
          if twoTime < oneTime && oneTime - twoTime > 1.0 {
            proceed := true;
          } else {
            result := ResultSkipped;
          }
        }
      }
    } else {
      if !oneExists {
        if !twoExists {
          return;
        } else {
          sourcePath := twoPath;
          targetPath := onePath;
          proceed := true;
        }
      } else {
        if !twoExists {
          proceed := true;
        } else {
          if twoTime < oneTime && oneTime - twoTime > 1.0 {
            proceed := true;
          } else {
            if oneTime < twoTime && twoTime - oneTime > 1.0 {
              sourcePath := twoPath;
              targetPath := onePath;
              proceed := true;
            } else {
              result := ResultSkipped;
            }
          }
        }
      }
    }
    if proceed {
      if dryRun {
        result := ResultCopied;
      } else {
        result := copied;
        copies := true;
      }
    } else {
      result := ResultSkipped;
    }
  }

  /** Outside sync mode file two is never the source, and file one is copied only over a missing or older file. */
  lemma OneWay(oneExists: bool, oneTime: real, twoExists: bool, twoTime: real)
    ensures var d := Decide(oneExists, oneTime, twoExists, twoTime, false);
      d != CopyFrom(Two) &&
      (d == Abort <==> !oneExists) &&
      (d == CopyFrom(One) <==> oneExists && (!twoExists || NewerBy(oneTime, twoTime)))
  {
  }

  /** A copy never goes from an existing file onto a file that is not older by more than a second. */
  lemma NeverOverwritesNewer(oneExists: bool, oneTime: real, twoExists: bool, twoTime: real, syncMode: bool)
    ensures var d := Decide(oneExists, oneTime, twoExists, twoTime, syncMode);
      (d == CopyFrom(One) ==> oneExists && (twoExists ==> NewerBy(oneTime, twoTime))) &&
      (d == CopyFrom(Two) ==> syncMode && twoExists && (oneExists ==> NewerBy(twoTime, oneTime)))
  {
  }

  /** Sync mode treats the two files alike: swapping them swaps the direction. */
  lemma SyncSymmetric(oneExists: bool, oneTime: real, twoExists: bool, twoTime: real)
    ensures var d := Decide(oneExists, oneTime, twoExists, twoTime, true);
      var e := Decide(twoExists, twoTime, oneExists, oneTime, true);
      (d == Abort <==> e == Abort) && (d == Skip <==> e == Skip) &&
      (d == CopyFrom(One) <==> e == CopyFrom(Two)) && (d == CopyFrom(Two) <==> e == CopyFrom(One))
  {
  }

  /** Files within a second of each other are left alone; a dry run reports the copy it would make. */
  lemma CloseTimesSkip(oneTime: real, twoTime: real, syncMode: bool, dryRun: bool, copied: CopyResult)
    requires -1.0 <= oneTime - twoTime <= 1.0
    ensures Decide(true, oneTime, true, twoTime, syncMode) == Skip
    ensures dryRun ==> Outcome(Decide(true, oneTime, false, twoTime, syncMode), dryRun, copied) == ResultCopied
  {
  }
}
