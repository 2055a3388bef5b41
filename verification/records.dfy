/** The alignment record as the tools see it, and the grouping of a stream into
    runs of consecutive records that share a query name. */
module Records {
  import opened Wrappers
  import opened Seqs

  /** One cigar operation: its type letter ('M', 'I', 'D', 'N', 'S', 'H', ...) and length. */
  datatype CigarOp = CigarOp(kind: char, len: nat)

  /** Flag bits the tools test. */
  datatype Flags = Flags(mapped: bool, secondary: bool, firstOfPair: bool, reverse: bool)

  /** Results of the record accessors the quality filter and the deletion scan consult.
      The three booleans stand for floating-point comparisons made against command-line
      thresholds: soft-clipped fraction above the soft limit, hard-clipped fraction above the
      hard limit, and mean Phred quality below 31. */
  datatype AlignStats = AlignStats(
    mapq: int,
    matchBases: int,
    alignStart: int,
    alignEnd: int,
    length: int,
    maxInsertion: int,
    maxDeletion: int,
    numSoftClip: int,
    numHardClip: int,
    softClipOverLimit: bool,
    hardClipOverLimit: bool,
    meanPhredBelow31: bool)

  /** One alignment record: query name, reference name, 0-based position, the BX tag when
      present, the AM tag text, flags, cigar, read bases and qualities, accessor results. */
  datatype Record = Record(
    qname: string,
    chr: string,
    pos: int,
    bx: Option<string>,
    am: string,
    flags: Flags,
    cigar: seq<CigarOp>,
    sequence: string,
    qualities: string,
    stats: AlignStats)

  /** The BX value read with `GetTag` into a fresh string: the tag text, or "" when absent. */
  function BxText(r: Record): string {
    r.bx.GetOr("")
  }

  // ---------------------------------------------------------------------------
  // Runs of equal query names
  // ---------------------------------------------------------------------------

  /** Every record of `g` carries the query name of its first record. */
  predicate SameName(g: seq<Record>) {
    forall i :: 0 <= i < |g| ==> g[i].qname == g[0].qname
  }

  /** `gs` cuts `s` into non-empty runs of one query name, neighbouring runs differing in name. */
  predicate IsGrouping(gs: seq<seq<Record>>, s: seq<Record>) {
    && Concat(gs) == s
    && (forall k :: 0 <= k < |gs| ==> |gs[k]| > 0 && SameName(gs[k]))
    && (forall k :: 0 < k < |gs| ==> gs[k - 1][0].qname != gs[k][0].qname)
  }

  /** The runs after `r` arrives: it joins the open run when its name matches, and
      opens a new run otherwise. */
  function AddRecord(gs: seq<seq<Record>>, r: Record): seq<seq<Record>> {
    if |gs| > 0 && |gs[|gs| - 1]| > 0 && gs[|gs| - 1][0].qname == r.qname
    then gs[..|gs| - 1] + [gs[|gs| - 1] + [r]]
    else gs + [[r]]
  }

  lemma AddRecordConcat(gs: seq<seq<Record>>, r: Record)
    ensures Concat(AddRecord(gs, r)) == Concat(gs) + [r]
  {
    if |gs| > 0 && |gs[|gs| - 1]| > 0 && gs[|gs| - 1][0].qname == r.qname {
      var n := |gs| - 1;
      assert gs == gs[..n] + [gs[n]];
      ConcatSnoc(gs[..n], gs[n]);
      ConcatSnoc(gs[..n], gs[n] + [r]);
    } else {
      ConcatSnoc(gs, [r]);
    }
  }

  lemma AddRecordGrouping(gs: seq<seq<Record>>, s: seq<Record>, r: Record)
    requires IsGrouping(gs, s)
    ensures IsGrouping(AddRecord(gs, r), s + [r])
  {
    AddRecordConcat(gs, r);
    var hs := AddRecord(gs, r);
    if |gs| > 0 && gs[|gs| - 1][0].qname == r.qname {
      var n := |gs| - 1;
      assert forall k :: 0 <= k < n ==> hs[k] == gs[k];
      assert hs[n] == gs[n] + [r];
      assert SameName(hs[n]);
    } else {
      assert forall k :: 0 <= k < |gs| ==> hs[k] == gs[k];
    }
  }

  /** The maximal runs of consecutive records with equal query names, in stream order. */
  function Groups(s: seq<Record>): (gs: seq<seq<Record>>)
    ensures IsGrouping(gs, s)
    decreases |s|
  {
    if |s| == 0 then []
    else
      var prev := Groups(s[..|s| - 1]);
      assert s == s[..|s| - 1] + [s[|s| - 1]];
      AddRecordGrouping(prev, s[..|s| - 1], s[|s| - 1]);
      AddRecord(prev, s[|s| - 1])
  }

  /** Appending a record to the stream appends it to the grouping. */
  lemma GroupsSnoc(s: seq<Record>, r: Record)
    ensures Groups(s + [r]) == AddRecord(Groups(s), r)
  {
    assert (s + [r])[..|s|] == s;
  }

  /** The runs completed after reading `s`: all but the last, which may still grow. */
  function Closed(s: seq<Record>): seq<seq<Record>> {
    var gs := Groups(s);
    if |gs| == 0 then [] else gs[..|gs| - 1]
  }

  /** The run still open after reading `s`: the last one, or empty before any record. */
  function Open(s: seq<Record>): (g: seq<Record>)
    ensures |s| > 0 <==> |g| > 0
  {
    var gs := Groups(s);
    if |gs| == 0 then [] else gs[|gs| - 1]
  }

  lemma ClosedThenOpen(s: seq<Record>)
    ensures |s| > 0 ==> |Open(s)| > 0 && Groups(s) == Closed(s) + [Open(s)]
    ensures |s| == 0 ==> Groups(s) == [] && Open(s) == []
  {
  }

  /** Reading one more record: a record with the open run's name extends it; any other
      record closes the open run (if there is one) and opens a new run. */
  lemma ReadNext(s: seq<Record>, r: Record)
    ensures |s| > 0 && Open(s)[0].qname == r.qname ==>
      Closed(s + [r]) == Closed(s) && Open(s + [r]) == Open(s) + [r]
    ensures !(|s| > 0 && Open(s)[0].qname == r.qname) ==>
      Closed(s + [r]) == Closed(s) + (if |s| == 0 then [] else [Open(s)]) && Open(s + [r]) == [r]
  {
    GroupsSnoc(s, r);
    var gs := Groups(s);
    if |s| > 0 {
      var n := |gs| - 1;
      assert gs == gs[..n] + [gs[n]];
      assert (gs[..n] + [gs[n] + [r]])[..n] == gs[..n];
      assert (gs + [[r]])[..|gs|] == gs;
    }
  }

  /** One iteration of a driver loop that keeps the open run and the name of its records
      (or "" before the first record): a record with another name closes the open run, if
      any, and opens a new one; a record with the same name extends the open run. */
  lemma NextRecord(s: seq<Record>, i: int, records: seq<Record>, current: string)
    requires 0 <= i < |s|
    requires records == Open(s[..i])
    requires current == if i == 0 then "" else records[0].qname
    ensures current != s[i].qname ==>
      Closed(s[..i + 1]) == Closed(s[..i]) + (if |records| == 0 then [] else [records])
      && Open(s[..i + 1]) == [s[i]]
    ensures current == s[i].qname ==>
      Closed(s[..i + 1]) == Closed(s[..i]) && Open(s[..i + 1]) == records + [s[i]]
  {
    assert s[..i + 1] == s[..i] + [s[i]];
    ClosedThenOpen(s[..i]);
    ReadNext(s[..i], s[i]);
  }

  /** After the last record the open run is the last run. */
  lemma LastRun(s: seq<Record>)
    ensures Groups(s) == Closed(s) + (if |Open(s)| == 0 then [] else [Open(s)])
  {
    ClosedThenOpen(s);
    if |s| == 0 {
      assert Closed(s) + [] == [];
    }
  }

  /** Every record of every run comes from the stream. */
  lemma GroupsWithin(s: seq<Record>, k: int, x: Record)
    requires 0 <= k < |Groups(s)| && x in Groups(s)[k]
    ensures x in s
  {
    ConcatMember(Groups(s), k, x);
  }

  /** The records of the runs `keep` accepts, each run whole, in order. */
  function Kept(keep: seq<Record> -> bool, gs: seq<seq<Record>>): seq<Record>
    decreases |gs|
  {
    if |gs| == 0 then []
    else Kept(keep, gs[..|gs| - 1]) + (if keep(gs[|gs| - 1]) then gs[|gs| - 1] else [])
  }

  /** A record is kept exactly when some run holding it is accepted: every run is kept
      entirely or not at all. */
  lemma {:induction false} KeptMembers(keep: seq<Record> -> bool, gs: seq<seq<Record>>, x: Record)
    ensures x in Kept(keep, gs) <==> exists k :: 0 <= k < |gs| && keep(gs[k]) && x in gs[k]
    decreases |gs|
  {
    if |gs| > 0 {
      var n := |gs| - 1;
      var pre := gs[..n];
      KeptMembers(keep, pre, x);
      assert forall k :: 0 <= k < n ==> pre[k] == gs[k];
      if x in Kept(keep, gs) && x !in Kept(keep, pre) {
        assert keep(gs[n]) && x in gs[n];
      }
      if exists k :: 0 <= k < |gs| && keep(gs[k]) && x in gs[k] {
        var k :| 0 <= k < |gs| && keep(gs[k]) && x in gs[k];
        if k < n {
          assert keep(pre[k]) && x in pre[k];
        }
      }
    }
  }

  lemma KeptSnoc(keep: seq<Record> -> bool, gs: seq<seq<Record>>, g: seq<Record>)
    ensures Kept(keep, gs + (if |g| == 0 then [] else [g])) == Kept(keep, gs) + (if keep(g) then g else [])
  {
    if |g| > 0 {
      assert (gs + [g])[..|gs|] == gs;
    } else {
      assert gs + [] == gs;
    }
  }
}
