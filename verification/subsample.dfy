/** `bxtools subsample`: collect the barcodes of a stream, keep the first `target` of them in
    the set's iteration order, and write the records whose barcode is kept or absent. */
module Subsample {
  import opened Seqs
  import opened Records

  /** The barcodes a stream carries: every non-empty BX value. */
  function BarcodeSet(s: seq<Record>): (bs: set<string>)
    ensures bs == set i | 0 <= i < |s| && BxText(s[i]) != "" :: BxText(s[i])
    decreases |s|
  {
    if |s| == 0 then {}
    else
      var n := |s| - 1;
      var prev := BarcodeSet(s[..n]);
      assert forall i :: 0 <= i < n ==> s[..n][i] == s[i];
      if BxText(s[n]) == "" then prev else prev + {BxText(s[n])}
  }

  /** The keep-set loop: barcodes are taken in the iteration order `order` of the barcode set
      and the loop stops right after the `target`-th one. A target below 1 or above the number
      of barcodes is never met, so every barcode is kept. */
  method ChooseKeep(order: seq<string>, target: int) returns (keep: set<string>)
    requires Distinct(order)
    ensures keep <= Elements(order)
    ensures 1 <= target <= |order| ==> keep == Elements(order[..target]) && |keep| == target
    ensures target < 1 || target > |order| ==> keep == Elements(order)
  {
    keep := {};
    var i := 0;
    while i < |order|
      invariant 0 <= i <= |order|
      invariant keep == Elements(order[..i])
      invariant target < 1 || target > i
    {
      keep := keep + {order[i]};
      assert order[..i + 1] == order[..i] + [order[i]];
      i := i + 1;
      if i == target {
        assert Distinct(order[..i]);
        DistinctCard(order[..i]);
        return;
      }
    }
    assert order[..i] == order;
  }

  /** The output rule: a record without a barcode is always written, one with a barcode
      exactly when the barcode is kept. */
  predicate Written(keep: set<string>, r: Record) {
    BxText(r) == "" || BxText(r) in keep
  }

  function WrittenBy(keep: set<string>): Record -> bool {
    r => Written(keep, r)
  }

  /** The output loop: the records with no barcode or a kept one, in input order. */
  method WriteKept(keep: set<string>, s: seq<Record>) returns (out: seq<Record>)
    ensures out == Filter(WrittenBy(keep), s)
    ensures forall r :: r in out <==> r in s && (BxText(r) == "" || BxText(r) in keep)
  {
    out := [];
    var i := 0;
    while i < |s|
      invariant 0 <= i <= |s|
      invariant out == Filter(WrittenBy(keep), s[..i])
    {
      assert s[..i + 1] == s[..i] + [s[i]];
      FilterConcat(WrittenBy(keep), s[..i], [s[i]]);
      FilterSingle(WrittenBy(keep), s[i]);
      if BxText(s[i]) == "" {
        out := out + [s[i]];
      } else if BxText(s[i]) in keep {
        out := out + [s[i]];
      }
      i := i + 1;
    }
    assert s[..i] == s;
  }

  /** `runSubsample`: the keep-set chosen in the iteration order `order` (any duplicate-free
      listing of the barcode set), and the records written. */
  method RunSubsample(s: seq<Record>, order: seq<string>, target: int)
    returns (keep: set<string>, out: seq<Record>)
    requires Distinct(order) && Elements(order) == BarcodeSet(s)
    ensures keep <= BarcodeSet(s)
    ensures 1 <= target <= |order| ==> keep == Elements(order[..target]) && |keep| == target
    ensures target < 1 || target > |order| ==> keep == BarcodeSet(s)
    ensures out == Filter(WrittenBy(keep), s)
    ensures forall r :: r in out <==> r in s && (BxText(r) == "" || BxText(r) in keep)
  {
    keep := ChooseKeep(order, target);
    out := WriteKept(keep, s);
  }
}
