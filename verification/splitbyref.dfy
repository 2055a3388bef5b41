/** `bxtools split`: for every reference, the set of barcodes of the records aligned to it,
    written as an ascending list, one barcode per line, into a file named after the reference. */
module SplitByReference {
  import opened Seqs
  import opened Strings
  import opened Records

  /** The barcodes per reference: only records with a non-empty BX value count, and a
      reference with none of them gets no entry. */
  function Tags(s: seq<Record>): (m: map<string, set<string>>)
    ensures m.Keys == set i | 0 <= i < |s| && BxText(s[i]) != "" :: s[i].chr
    ensures forall c :: c in m ==>
      m[c] == set i | 0 <= i < |s| && BxText(s[i]) != "" && s[i].chr == c :: BxText(s[i])
    decreases |s|
  {
    if |s| == 0 then map[]
    else
      var n := |s| - 1;
      var prev := Tags(s[..n]);
      assert forall i :: 0 <= i < n ==> s[..n][i] == s[i];
      var r := s[n];
      if BxText(r) == "" then prev
      else prev[r.chr := (if r.chr in prev then prev[r.chr] else {}) + {BxText(r)}]
  }

  /** Iterating a `std::set<std::string>`: its elements in ascending byte-wise order, each once. */
  method SortedListing(bs: set<string>) returns (ls: seq<string>)
    ensures StrictlySorted(ls) && Elements(ls) == bs
    ensures |ls| == |bs|
  {
    ls := [];
    var rest := bs;
    while rest != {}
      invariant StrictlySorted(ls)
      invariant Elements(ls) + rest == bs
      decreases |rest|
    {
      var x :| x in rest;
      ls := InsertSorted(x, ls);
      rest := rest - {x};
    }
    StrictlySortedDistinct(ls);
    DistinctCard(ls);
  }

  /** The file written for reference `chr`. */
  function FilePath(folder: string, chr: string): string {
    folder + "/" + chr + ".txt"
  }

  /** Different references are written to different files. */
  lemma FilePathInjective(folder: string, a: string, b: string)
    requires FilePath(folder, a) == FilePath(folder, b)
    ensures a == b
  {
    var p := FilePath(folder, a);
    assert |a| == |b|;
    var n := |folder| + 1;
    assert p[n..n + |a|] == a;
    assert FilePath(folder, b)[n..n + |b|] == b;
  }

  /** The files written for the listings: one per reference, named after it, holding its
      lines. */
  function FilesOf(folder: string, listing: map<string, seq<string>>): (files: map<string, string>)
    ensures files.Keys == set c | c in listing :: FilePath(folder, c)
    ensures forall c :: c in listing ==> files[FilePath(folder, c)] == Unlines(listing[c])
  {
    assert forall a, b :: a in listing && b in listing && FilePath(folder, a) == FilePath(folder, b) ==> a == b by {
      forall a, b | a in listing && b in listing && FilePath(folder, a) == FilePath(folder, b)
        ensures a == b
      {
        FilePathInjective(folder, a, b);
      }
    }
    map c | c in listing :: FilePath(folder, c) := Unlines(listing[c])
  }

  /** Writes one file per entry of `tags`: the entry's barcodes, ascending, one per line.
      `listing` gives the lines of each file. */
  method WriteFiles(folder: string, tags: map<string, set<string>>)
    returns (files: map<string, string>, listing: map<string, seq<string>>)
    ensures listing.Keys == tags.Keys
    ensures files.Keys == set c | c in tags :: FilePath(folder, c)
    ensures forall c :: c in tags ==>
      && StrictlySorted(listing[c])
      && Elements(listing[c]) == tags[c]
      && files[FilePath(folder, c)] == Unlines(listing[c])
  {
    listing := map[];
    var todo := tags.Keys;
    while todo != {}
      invariant todo <= tags.Keys
      invariant listing.Keys == tags.Keys - todo
      invariant forall c :: c in listing ==> StrictlySorted(listing[c]) && Elements(listing[c]) == tags[c]
      decreases |todo|
    {
      var c :| c in todo;
      var ls := SortedListing(tags[c]);
      listing := listing[c := ls];
      todo := todo - {c};
    }
    files := FilesOf(folder, listing);
  }

  /** `runSplitByReference`: one file per reference holding a barcoded record, listing the
      barcodes of the records on that reference, ascending, one per line. */
  method SplitByReference(folder: string, s: seq<Record>)
    returns (files: map<string, string>, listing: map<string, seq<string>>)
    ensures listing.Keys == set i | 0 <= i < |s| && BxText(s[i]) != "" :: s[i].chr
    ensures files.Keys == set c | c in listing :: FilePath(folder, c)
    ensures forall c :: c in listing ==>
      && StrictlySorted(listing[c])
      && Elements(listing[c]) == (set i | 0 <= i < |s| && BxText(s[i]) != "" && s[i].chr == c :: BxText(s[i]))
      && files[FilePath(folder, c)] == Unlines(listing[c])
  {
    files, listing := WriteFiles(folder, Tags(s));
  }
}
