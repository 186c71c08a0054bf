/**
 * `convert_url` of bin/genurl.py: an Artifactory URL that names the local
 * repository `simics-local` is turned into the generic URL of the same
 * artifact under the `simics-repos` virtual repository.  The printed URL is
 * the function's value; `None` stands for the "(not a valid artifactory
 * url)" message.
 */
module GenUrl {
  import opened Wrappers
  import opened PyStr

  const LocalRepo: string := "simics-local"
  const GenericRepo: string := "simics-repos"
  /** The generic root every converted URL starts with, `https://simics-artifactory.devtools.intel.com/artifactory/`. */
  const GenericRoot: string := RootHead + "-" + RootTail
  const RootHead: string := "https://simics"
  const RootTail: string := "artifactory.devtools.intel.com/artifactory/"

  /**
   * `convert_url`: every `simics-local` becomes `simics-repos`, then all text
   * before the first `simics-repos` is replaced by the generic root.
   */
  function ConvertUrl(inUrl: string): (r: Option<string>)
    ensures var u := ReplaceAll(inUrl, LocalRepo, GenericRepo);
      (r.None? <==> !Contains(u, GenericRepo)) &&
      (r.Some? ==> exists k :: 0 <= k <= |u| && OccursAt(u, GenericRepo, k) && r.value == GenericRoot + u[k..])
  {
    var u := ReplaceAll(inUrl, LocalRepo, GenericRepo);
    var repIndex := Find(u, GenericRepo);
    if repIndex == -1 then None else Some(GenericRoot + u[repIndex..])
  }

  /** The suffix a converted URL keeps is the text from the first `simics-repos` on. */
  lemma ConvertUrlSuffix(inUrl: string)
    requires ConvertUrl(inUrl).Some?
    ensures var u := ReplaceAll(inUrl, LocalRepo, GenericRepo);
      var k := |u| - (|ConvertUrl(inUrl).value| - |GenericRoot|);
      0 <= k && OccursAt(u, GenericRepo, k) &&
      (forall j :: 0 <= j < k ==> !OccursAt(u, GenericRepo, j)) &&
      ConvertUrl(inUrl).value == GenericRoot + u[k..]
  {
  }

  /** A URL without either repository name is not an Artifactory URL. */
  lemma ConvertUrlRejects(inUrl: string)
    requires !Contains(inUrl, LocalRepo) && !Contains(inUrl, GenericRepo)
    ensures ConvertUrl(inUrl) == None
  {
    ReplaceAllNoop(inUrl, LocalRepo, GenericRepo);
  }

  /** The only `-` of the generic root is the one after `https://simics`. */
  lemma RootDash(k: int)
    requires 0 <= k < |GenericRoot| && k != 14
    ensures GenericRoot[k] != '-'
  {
    if k < 14 {
      assert GenericRoot[k] == RootHead[k] && '-' !in RootHead;
    } else {
      assert GenericRoot[k] == RootTail[k - 15] && '-' !in RootTail;
    }
  }

  /**
   * Neither repository name can start inside the generic root, whatever
   * follows it: a name would need its `-` where the root has none, and it
   * would have to contain the root's final `/`.
   */
  lemma RootFree(suffix: string, pat: string)
    requires |pat| == 12 && pat[6] == '-' && pat[7] != 'a' && '/' !in pat
    ensures forall j :: 0 <= j < |GenericRoot| ==> !OccursAt(GenericRoot + suffix, pat, j)
  {
    var s := GenericRoot + suffix;
    forall j | 0 <= j < |GenericRoot|
      ensures !OccursAt(s, pat, j)
    {
      if j + 12 <= |GenericRoot| {
        if j == 8 {
          assert s[15] == RootTail[0] == 'a';
        } else {
          RootDash(j + 6);
          assert s[j + 6] == GenericRoot[j + 6];
        }
      } else {
        assert s[|GenericRoot| - 1] == '/';
        assert j <= |GenericRoot| - 1 < j + 12;
      }
    }
  }

  /** A generic URL without `simics-local` converts to itself. */
  lemma ConvertUrlFixed(u: string)
    requires StartsWith(u, GenericRepo)
    requires !Contains(GenericRoot + u, LocalRepo)
    ensures ConvertUrl(GenericRoot + u) == Some(GenericRoot + u)
  {
    var y := GenericRoot + u;
    ReplaceAllNoop(y, LocalRepo, GenericRepo);
    RootFree(u, GenericRepo);
    assert y[|GenericRoot|..|GenericRoot| + 12] == GenericRepo;
    assert OccursAt(y, GenericRepo, |GenericRoot|);
    assert y[|GenericRoot|..] == u;
  }

  /** A `simics-local` after the generic root lies wholly in the text that follows it. */
  lemma LocalInSuffix(u: string)
    requires Contains(GenericRoot + u, LocalRepo)
    ensures Contains(u, LocalRepo)
  {
    var y := GenericRoot + u;
    RootFree(u, LocalRepo);
    var p := Find(y, LocalRepo);
    assert y[p..p + 12] == u[p - |GenericRoot|..p - |GenericRoot| + 12];
    assert OccursAt(u, LocalRepo, p - |GenericRoot|);
  }

  /** A generic URL that holds `simics-local` converts to a different URL. */
  lemma ConvertUrlMoves(u: string)
    requires Contains(GenericRoot + u, LocalRepo)
    ensures ConvertUrl(GenericRoot + u) != Some(GenericRoot + u)
  {
    var y := GenericRoot + u;
    RootFree(u, LocalRepo);
    ReplaceAllPrefix(GenericRoot, u, LocalRepo, GenericRepo);
    LocalInSuffix(u);
    ReplaceAllChanges(u, LocalRepo, GenericRepo);
    ReplaceAllLength(u, LocalRepo, GenericRepo);
    var z := ReplaceAll(y, LocalRepo, GenericRepo);
    assert z[|GenericRoot|..] == ReplaceAll(u, LocalRepo, GenericRepo);
  }

  /**
   * Converting a converted URL again gives it back exactly when it holds no
   * `simics-local`; otherwise the second conversion rewrites that name.
   */
  lemma ConvertUrlAgain(inUrl: string)
    requires ConvertUrl(inUrl).Some?
    ensures var y := ConvertUrl(inUrl).value;
      ConvertUrl(y) == Some(y) <==> !Contains(y, LocalRepo)
  {
    var y := ConvertUrl(inUrl).value;
    var u := y[|GenericRoot|..];
    assert y == GenericRoot + u;
    assert u[..12] == GenericRepo;
    if Contains(y, LocalRepo) {
      ConvertUrlMoves(u);
    } else {
      ConvertUrlFixed(u);
    }
  }

  /**
   * The replacement can create the name it removes: `simics-localimics-local`
   * becomes `simics-reposimics-local`, so its converted URL still holds
   * `simics-local` and is not a fixed point of the conversion.
   */
  lemma ConvertUrlLeavesLocal()
    ensures var y := GenericRoot + "simics-reposimics-local";
      ConvertUrl("simics-localimics-local") == Some(y) && Contains(y, LocalRepo)
  {
    var s := "simics-localimics-local";
    assert s[..12] == LocalRepo;
    assert |s[12..]| < 12;
    assert ReplaceAll(s, LocalRepo, GenericRepo) == GenericRepo + s[12..];
    var u := GenericRepo + s[12..];
    assert u[0..12] == GenericRepo;
    assert Find(u, GenericRepo) == 0;
    assert u == "simics-reposimics-local";
    var y := GenericRoot + u;
    assert y[|GenericRoot| + 11..|GenericRoot| + 23] == LocalRepo;
    assert OccursAt(y, LocalRepo, |GenericRoot| + 11);
  }
}
