/**
 * The renaming loop of bin/collectdefaults.py: every `default_fuse_values.txt`
 * found is copied into the target directory under the name of its parent
 * directory, an underscore and its own name.  The search, the directory
 * creation and the copying are not modelled; the file's `extract_result`
 * is the one of bin/collecttests.py, modelled in `CollectTests`.
 */
module CollectDefaults {
  import opened PyStr
  import opened PosixPath

  /** The name a found file is copied under: parent directory name, `_`, file name. */
  function TargetName(curFile: string): string
  {
    Basename(Dirname(curFile)) + "_" + Basename(curFile)
  }

  /** Where a found file is copied to. */
  function TargetPath(targetdir: string, curFile: string): string
  {
    Join(targetdir, TargetName(curFile))
  }

  /** The loop of `__main__`: the target path of each found file, in order. */
  method TargetPaths(targetdir: string, foundFiles: seq<string>) returns (targets: seq<string>)
    ensures |targets| == |foundFiles|
    ensures forall i :: 0 <= i < |foundFiles| ==> targets[i] == TargetPath(targetdir, foundFiles[i])
  {
    targets := [];
    for i := 0 to |foundFiles|
      invariant |targets| == i
      invariant forall j :: 0 <= j < i ==> targets[j] == TargetPath(targetdir, foundFiles[j])
    {
      var curFile := foundFiles[i];
      var filepart1 := Basename(curFile);
      var filepart2 := Basename(Dirname(curFile));
      var targetPath := Join(targetdir, filepart2 + "_" + filepart1);
      assert filepart2 + "_" + filepart1 == TargetName(curFile);
      assert targetPath == TargetPath(targetdir, curFile);
      targets := targets + [targetPath];
    }
  }

  /** A name without `/` joined onto the target directory is the base name of the result. */
  lemma NameInDirectory(targetdir: string, parent: string, base: string)
    requires '/' !in parent && '/' !in base
    ensures Basename(Join(targetdir, parent + "_" + base)) == parent + "_" + base
  {
    var name := parent + "_" + base;
    forall i | 0 <= i < |name|
      ensures name[i] != '/'
    {
      if i < |parent| {
        assert name[i] == parent[i];
      } else if i > |parent| {
        assert name[i] == base[i - |parent| - 1];
      }
    }
    JoinBasename(targetdir, name);
  }

  /** Every copy lands directly in the target directory, under its target name. */
  lemma TargetInDirectory(targetdir: string, curFile: string)
    ensures Basename(TargetPath(targetdir, curFile)) == TargetName(curFile)
  {
    BasenameShape(Dirname(curFile));
    BasenameShape(curFile);
    NameInDirectory(targetdir, Basename(Dirname(curFile)), Basename(curFile));
  }

  /** The file `f` in directory `x` below any path `p` is copied as `x_f`. */
  lemma TargetNameOf(p: string, x: string, f: string)
    requires '/' !in x && '/' !in f && x != ""
    ensures TargetName(p + "/" + x + "/" + f) == x + "_" + f
  {
    var head := p + "/" + x + "/";
    var path := head + f;
    assert p + "/" + x + "/" + f == path;
    LastSlashAppend(head, f);
    assert LastSlash(head) == |head| - 1;
    assert Basename(path) == f;
    assert path[..LastSlash(path) + 1] == head;
    var dir := p + "/" + x;
    assert head == dir + "/";
    assert head[|dir| - 1] == x[|x| - 1] != '/';
    assert RStripWith(head, IsSlash) == dir by {
      assert head[..|head| - 1] == dir;
    }
    assert Dirname(path) == dir;
    LastSlashAppend(p + "/", x);
    assert (p + "/")[|p|] == '/';
    assert Basename(dir) == x;
  }

  /**
   * Two files of the same name in directories of the same name are copied
   * to the same target: the later copy overwrites the earlier one.
   */
  lemma TargetsCollide(targetdir: string, p: string, q: string, x: string, f: string)
    requires '/' !in x && '/' !in f && x != ""
    ensures TargetPath(targetdir, p + "/" + x + "/" + f) == TargetPath(targetdir, q + "/" + x + "/" + f)
  {
    TargetNameOf(p, x, f);
    TargetNameOf(q, x, f);
  }
}
