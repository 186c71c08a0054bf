/**
 * `compare_lines` of bin/comparefiles.py: the stripped lines of two files
 * are split into the lines only the first file has, the lines only the
 * second has and the lines both have, each list free of repeats and in the
 * order the lines first occur, or sorted on request.
 */
module CompareFiles {
  import opened StrOrder
  import opened Dedup

  datatype Comparison = Comparison(file1: seq<string>, file2: seq<string>, common: seq<string>)

  function Absent(other: seq<string>): string -> bool
  {
    x => x !in other
  }

  function Present(other: seq<string>): string -> bool
  {
    x => x in other
  }

  /** The three lists, before the optional sort. */
  function Unsorted(lines1: seq<string>, lines2: seq<string>): Comparison
  {
    Comparison(Distinct(lines1, Absent(lines2)), Distinct(lines2, Absent(lines1)),
               Distinct(lines1, Present(lines2)))
  }

  /** What `compare_lines(lines1, lines2, sort)` returns. */
  function Compared(lines1: seq<string>, lines2: seq<string>, sort: bool): Comparison
  {
    var c := Unsorted(lines1, lines2);
    if sort then Comparison(SortStrings(c.file1), SortStrings(c.file2), SortStrings(c.common)) else c
  }

  /** `compare_lines`: one pass over the first file's lines, one over the second's. */
  method CompareLines(lines1: seq<string>, lines2: seq<string>, sort: bool) returns (file1: seq<string>, file2: seq<string>, common: seq<string>)
    ensures Comparison(file1, file2, common) == Compared(lines1, lines2, sort)
  {
    file1, file2, common := [], [], [];
    for i := 0 to |lines1|
      invariant file1 == Distinct(lines1[..i], Absent(lines2))
      invariant common == Distinct(lines1[..i], Present(lines2))
    {
      assert lines1[..i + 1][..i] == lines1[..i];
      var cur := lines1[i];
      if cur in lines2 {
        if cur !in common {
          common := common + [cur];
        }
      } else {
        if cur !in file1 {
          file1 := file1 + [cur];
        }
      }
    }
    assert lines1[..|lines1|] == lines1;
    for i := 0 to |lines2|
      invariant file2 == Distinct(lines2[..i], Absent(lines1))
    {
      assert lines2[..i + 1][..i] == lines2[..i];
      var cur := lines2[i];
      if cur !in lines1 {
        if cur !in file2 {
          file2 := file2 + [cur];
        }
      }
    }
    assert lines2[..|lines2|] == lines2;
    if sort {
      file1, file2, common := SortStrings(file1), SortStrings(file2), SortStrings(common);
    }
  }

  /** Only-in-first, only-in-second and common hold exactly the lines the names say, whether or not sorted. */
  lemma CompareMembers(lines1: seq<string>, lines2: seq<string>, sort: bool)
    ensures var c := Compared(lines1, lines2, sort);
      forall x ::
        (x in c.file1 <==> x in lines1 && x !in lines2) &&
        (x in c.file2 <==> x in lines2 && x !in lines1) &&
        (x in c.common <==> x in lines1 && x in lines2)
  {
    var u := Unsorted(lines1, lines2);
    DistinctSpec(lines1, Absent(lines2));
    DistinctSpec(lines2, Absent(lines1));
    DistinctSpec(lines1, Present(lines2));
    SortedSame(u.file1);
    SortedSame(u.file2);
    SortedSame(u.common);
  }

  lemma SortedSame(s: seq<string>)
    ensures forall x :: x in SortStrings(s) <==> x in s
  {
    assert multiset(SortStrings(s)) == multiset(s);
    forall x
      ensures x in SortStrings(s) <==> x in s
    {
      assert x in SortStrings(s) <==> x in multiset(SortStrings(s));
    }
  }

  /** Every line of the first file is in exactly one of only-in-first and common. */
  lemma ComparePartition(lines1: seq<string>, lines2: seq<string>, sort: bool)
    ensures var c := Compared(lines1, lines2, sort);
      forall i :: 0 <= i < |lines1| ==> (lines1[i] in c.file1 <==> lines1[i] !in c.common)
  {
    CompareMembers(lines1, lines2, sort);
  }

  /** No list repeats a line; unsorted lists follow first occurrence, sorted ones are ordered. */
  lemma CompareShape(lines1: seq<string>, lines2: seq<string>, sort: bool)
    ensures var c := Compared(lines1, lines2, sort);
      NoRepeats(c.file1) && NoRepeats(c.file2) && NoRepeats(c.common)
    ensures var c := Compared(lines1, lines2, sort);
      sort ==> Ordered(c.file1) && Ordered(c.file2) && Ordered(c.common)
    ensures var c := Compared(lines1, lines2, false);
      InFirstOrder(c.file1, lines1) && InFirstOrder(c.common, lines1) && InFirstOrder(c.file2, lines2)
  {
    var u := Unsorted(lines1, lines2);
    DistinctSpec(lines1, Absent(lines2));
    DistinctSpec(lines2, Absent(lines1));
    DistinctSpec(lines1, Present(lines2));
    if sort {
      PermutedNoRepeats(u.file1, SortStrings(u.file1));
      PermutedNoRepeats(u.file2, SortStrings(u.file2));
      PermutedNoRepeats(u.common, SortStrings(u.common));
    }
  }
}
