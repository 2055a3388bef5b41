/** `bxtools extract`: read a whitespace-separated barcode list and write the records whose
    BX tag is present and listed. */
module Extract {
  import opened Seqs
  import opened Strings
  import opened Records
  import opened Wrappers

  /** `fillBarcodeMap`: every token `in >> barcode` reads from the list file; repeated
      barcodes collapse, and each barcode is a non-empty run of non-whitespace. */
  function BarcodeList(text: string): (bs: set<string>)
    ensures forall b :: b in bs ==> IsWord(b)
    ensures bs == {} <==> AllSpace(text)
  {
    var ws := Tokens(text);
    assert |ws| > 0 ==> ws[0] in Elements(ws);
    Elements(ws)
  }

  /** A list of barcodes separated by any whitespace (spaces, tabs, CR, LF) is read back as
      the set of those barcodes. */
  lemma BarcodeListOfLayout(ws: seq<string>, gaps: seq<string>)
    requires forall k :: 0 <= k < |ws| ==> IsWord(ws[k])
    requires Separates(ws, gaps)
    ensures BarcodeList(Interleave(ws, gaps)) == Elements(ws)
  {
    TokensOfLayout(ws, gaps);
  }

  /** A list written one barcode per line is read back as the set of its barcodes. */
  lemma BarcodeListOfLines(ls: seq<string>)
    requires forall k :: 0 <= k < |ls| ==> IsWord(ls[k])
    ensures BarcodeList(Unlines(ls)) == Elements(ls)
  {
    TokensOfUnlines(ls);
  }

  /** The list file is opened with an unchecked `std::ifstream`: a file that cannot be opened
      reads as no text, so no barcode is listed and no record is written. */
  lemma UnopenedListExtractsNothing(s: seq<Record>)
    ensures BarcodeList("") == {}
    ensures Filter(WantedBy(BarcodeList("")), s) == []
  {
  }

  /** The test `GetZTag` and `count` make: the tag is present and its value is listed. */
  predicate Wanted(bs: set<string>, r: Record) {
    r.bx.Some? && r.bx.value in bs
  }

  function WantedBy(bs: set<string>): Record -> bool {
    r => Wanted(bs, r)
  }

  /** `runExtract`'s loop: the listed records, in input order. */
  method RunExtract(text: string, s: seq<Record>) returns (out: seq<Record>)
    ensures out == Filter(WantedBy(BarcodeList(text)), s)
    ensures forall r :: r in out <==> r in s && r.bx.Some? && r.bx.value in Elements(Tokens(text))
  {
    var bs := BarcodeList(text);
    out := [];
    var i := 0;
    while i < |s|
      invariant 0 <= i <= |s|
      invariant out == Filter(WantedBy(bs), s[..i])
    {
      assert s[..i + 1] == s[..i] + [s[i]];
      FilterConcat(WantedBy(bs), s[..i], [s[i]]);
      FilterSingle(WantedBy(bs), s[i]);
      var present := s[i].bx.Some?;
      if present && s[i].bx.value in bs {
        out := out + [s[i]];
      }
      i := i + 1;
    }
    assert s[..i] == s;
  }
}
