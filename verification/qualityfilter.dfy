/** `bxtools filter`: each run of records sharing a query name is kept whole or dropped whole,
    by the integer tests of `CheckConditions` (default mode) or by the rescue rules of the
    filter-bad mode. */
module QualityFilter {
  import opened Seqs
  import opened Strings
  import opened Records

  // ---------------------------------------------------------------------------
  // Machine integers
  // ---------------------------------------------------------------------------

  /** One more than the largest `size_t`. */
  const SizeModulus: int := 0x1_0000_0000_0000_0000

  /** A value of C++ type `int`. */
  predicate IsInt32(x: int) {
    -0x8000_0000 <= x < 0x8000_0000
  }

  /** Conversion of an integer to `size_t`: reduction modulo 2^64. */
  function ToSize(x: int): (u: nat)
    ensures u < SizeModulus
    ensures 0 <= x < SizeModulus ==> u == x
    ensures -SizeModulus <= x < 0 ==> u == x + SizeModulus
  {
    x % SizeModulus
  }

  /** The value of a byte read through a signed `char`. */
  function SignedChar(c: char): int {
    if c as int < 128 then c as int else c as int - 256
  }

  /** The sum `sum += (int)quals[i]` accumulates, before its conversion to `size_t`. */
  function SignedSum(q: string): int
    decreases |q|
  {
    if |q| == 0 then 0 else SignedSum(q[..|q| - 1]) + SignedChar(q[|q| - 1])
  }

  /** Text of 7-bit characters, as Phred+33 quality strings are. */
  predicate Ascii(q: string) {
    forall k :: 0 <= k < |q| ==> q[k] as int < 128
  }

  /** The sum of the character codes: the quantity a mean quality is taken of. */
  function CodeSum(q: string): int
    decreases |q|
  {
    if |q| == 0 then 0 else q[0] as int + CodeSum(q[1..])
  }

  lemma {:induction false} CodeSumSnoc(q: string, c: char)
    ensures CodeSum(q + [c]) == CodeSum(q) + c as int
    decreases |q|
  {
    if |q| == 0 {
      assert (q + [c])[1..] == [];
    } else {
      assert (q + [c])[1..] == q[1..] + [c];
      CodeSumSnoc(q[1..], c);
    }
  }

  /** On 7-bit text the signed sum is the code sum, which lies between 0 and 127 per character. */
  lemma {:induction false} AsciiSum(q: string)
    requires Ascii(q)
    ensures SignedSum(q) == CodeSum(q)
    ensures 0 <= CodeSum(q) <= 127 * |q|
    decreases |q|
  {
    if |q| > 0 {
      var p := q[..|q| - 1];
      AsciiSum(p);
      assert q == p + [q[|q| - 1]];
      CodeSumSnoc(p, q[|q| - 1]);
    }
  }

  /** The integer mean of a non-negative sum over `b` values is at least `m` exactly when the
      sum is at least `m * b`. */
  lemma MeanAtLeast(a: int, b: int, m: nat)
    requires a >= 0 && b > 0
    ensures a / b >= m <==> a >= m * b
  {
    var d := a / b;
    assert a == b * d + a % b;
    if d >= m {
      assert b * d >= b * m;
    } else {
      assert d <= m - 1;
      assert b * d <= b * (m - 1);
    }
  }

  // ---------------------------------------------------------------------------
  // AdditionalChecks
  // ---------------------------------------------------------------------------

  /** The smallest mean quality byte accepted: Phred 31 in Phred+33 encoding. */
  const MinMeanQuality: int := 33 + 31

  /** Fails the per-record length tests before the qualities are consulted. */
  predicate ShortOrClipped(r: Record) {
    r.stats.matchBases < 50 || (r.stats.alignStart > 25 && r.stats.length - r.stats.alignEnd > 25)
  }

  /** What `AdditionalChecks` needs to be defined: positions are C `int`s, and qualities are
      bytes whose count fits a BAM length field. */
  predicate Readable(r: Record) {
    && IsInt32(r.stats.alignStart)
    && IsInt32(r.stats.alignEnd)
    && |r.qualities| < 0x8000_0000
    && (forall k :: 0 <= k < |r.qualities| ==> r.qualities[k] as int < 256)
  }

  /** The stored qualities before the alignment start: all of them when the start lies past
      the last one, as it can after a leading hard clip. */
  function StoredFront(q: string, start: nat): (p: string)
    ensures |p| <= start && |p| <= |q|
    ensures forall k :: 0 <= k < |p| ==> p[k] == q[k]
  {
    if start <= |q| then q[..start] else q
  }

  /** The leading unaligned part has integer-mean quality byte at least 64 (or is empty),
      a position without a stored quality counting as 0. */
  predicate FrontGood(q: string, start: int) {
    start == 0 || (start > 0 && CodeSum(StoredFront(q, start)) >= MinMeanQuality * start)
  }

  /** The trailing unaligned part has integer-mean quality byte at least 64 (or is empty). */
  predicate BackGood(q: string, end: int) {
    end == |q| || (0 <= end < |q| && CodeSum(q[end..]) >= MinMeanQuality * (|q| - end))
  }

  /** The characters `quals[i]` may read: the string and, at index `|q|`, its terminating NUL. */
  function Terminated(q: string): string {
    q + ['\0']
  }

  /** `sum_front / start_pos` as the loop runs it: it reads `quals[0]` up to
      `quals[start_pos - 1]`, which stays within the string and its terminator only for
      `start_pos <= |q| + 1`. A negative start adds nothing, and the unsigned division then
      has a divisor beyond any sum. */
  function FrontMeanAsWritten(q: string, start: int): (m: nat)
    requires start != 0 && IsInt32(start) && start <= |q| + 1
    ensures start < 0 ==> m == 0
  {
    (if start > 0 then ToSize(SignedSum(Terminated(q)[..start])) else 0) / ToSize(start)
  }

  /** `sum_front / start_pos` reading only the stored qualities: a position past them adds
      nothing, as the terminator read at index `|q|` already does. A negative start gives 0. */
  function FrontMean(q: string, start: int): (m: nat)
    requires start != 0 && IsInt32(start)
    ensures start < 0 ==> m == 0
  {
    (if start > 0 then ToSize(SignedSum(StoredFront(q, start))) else 0) / ToSize(start)
  }

  /** Wherever the source's leading loop stays within the string and its terminator, it
      computes `FrontMean`. */
  lemma FrontMeanAgrees(q: string, start: int)
    requires start != 0 && IsInt32(start) && start <= |q| + 1
    ensures FrontMeanAsWritten(q, start) == FrontMean(q, start)
  {
    if start == |q| + 1 {
      var t := Terminated(q);
      assert t[..start] == t;
      assert t[..|t| - 1] == q;
      assert SignedSum(t) == SignedSum(q) + SignedChar('\0');
    } else if start > 0 {
      assert Terminated(q)[..start] == q[..start];
    }
  }

  /** `sum_back / (quals.length() - end_pos)`: the loop, comparing unsigned, adds nothing for an
      end outside the qualities, and the unsigned divisor is then positive, so the mean is 0. */
  function BackMean(q: string, end: int): (m: nat)
    requires end != |q| && IsInt32(end) && |q| < 0x8000_0000
    ensures end < 0 || end > |q| ==> m == 0
  {
    (if 0 <= end < |q| then ToSize(SignedSum(q[end..])) else 0) / ToSize(|q| - end)
  }

  /** On 7-bit qualities the front test is the mean test of the leading part. */
  lemma FrontMeanMeaning(q: string, start: int)
    requires start != 0 && IsInt32(start)
    ensures Ascii(q) ==> (FrontMean(q, start) >= MinMeanQuality <==> FrontGood(q, start))
  {
    if Ascii(q) && start > 0 {
      var p := StoredFront(q, start);
      assert Ascii(p);
      AsciiSum(p);
      MeanAtLeast(CodeSum(p), start, MinMeanQuality);
    }
  }

  /** On 7-bit qualities the back test is the mean test of the trailing part. */
  lemma BackMeanMeaning(q: string, end: int)
    requires end != |q| && IsInt32(end) && |q| < 0x8000_0000
    ensures Ascii(q) ==> (BackMean(q, end) >= MinMeanQuality <==> BackGood(q, end))
  {
    if Ascii(q) && 0 <= end < |q| {
      var p := q[end..];
      assert Ascii(p);
      AsciiSum(p);
      MeanAtLeast(CodeSum(p), |q| - end, MinMeanQuality);
    }
  }

  /** `AdditionalChecks`: enough matched bases, not clipped far at both ends, and a mean
      quality byte of at least 64 over each unaligned end. */
  function AdditionalChecks(r: Record): (ok: bool)
    requires Readable(r)
    ensures r.stats.matchBases < 50 ==> !ok
    ensures r.stats.alignStart > 25 && r.stats.length - r.stats.alignEnd > 25 ==> !ok
    ensures r.stats.alignStart < 0 ==> !ok
    ensures r.stats.alignEnd < 0 || r.stats.alignEnd > |r.qualities| ==> !ok
    ensures Ascii(r.qualities) ==>
      (ok <==> !ShortOrClipped(r) && FrontGood(r.qualities, r.stats.alignStart)
                                  && BackGood(r.qualities, r.stats.alignEnd))
  {
    var q := r.qualities;
    var start := r.stats.alignStart;
    var end := r.stats.alignEnd;
    if ShortOrClipped(r) then false
    else if start != 0 && (FrontMeanMeaning(q, start); FrontMean(q, start) < MinMeanQuality) then false
    else if end != |q| && (BackMeanMeaning(q, end); BackMean(q, end) < MinMeanQuality) then false
    else true
  }

  /** A 100H50M alignment keeps 50 qualities but starts at 100: it passes both length tests,
      so the source's leading loop reads past the string and its terminator, outside
      `FrontMeanAsWritten`. Reading only the stored qualities, a 7-bit record of this shape
      always fails, its leading mean being at most 127 * 50 / 100. */
  lemma HardClipReadsPastEnd(r: Record)
    requires r.cigar == [CigarOp('H', 100), CigarOp('M', 50)]
    requires |r.qualities| == 50 && r.stats.matchBases == 50 && r.stats.length == 50
    requires r.stats.alignStart == 100 && r.stats.alignEnd == 150
    ensures !ShortOrClipped(r) && r.stats.alignStart > |r.qualities| + 1
    ensures Readable(r) && Ascii(r.qualities) ==> !AdditionalChecks(r)
  {
    if Readable(r) && Ascii(r.qualities) {
      AsciiSum(r.qualities);
      assert StoredFront(r.qualities, 100) == r.qualities;
    }
  }

  // ---------------------------------------------------------------------------
  // DecoyOrUnmapped
  // ---------------------------------------------------------------------------

  /** A reference name of a decoy or unplaced contig: its first two characters are "hs"
      (`substr(0, 2)` of a shorter name is the whole name), or it contains "Un". */
  function DecoyOrUnmapped(chr: string): (b: bool)
    ensures b <==> (|chr| >= 2 && chr[0] == 'h' && chr[1] == 's') || exists k :: OccursAt(chr, "Un", k)
  {
    var prefix := if |chr| >= 2 then chr[..2] else chr;
    if prefix == "hs" then true
    else
      var k := FindFrom(chr, "Un", 0);
      k != -1
  }

  // ---------------------------------------------------------------------------
  // CheckConditions
  // ---------------------------------------------------------------------------

  /** The options `runFilter` reads: the mapping-quality threshold and the filter-bad switch.
      The clip-ratio thresholds act through the record's `softClipOverLimit` and
      `hardClipOverLimit`. */
  datatype Options = Options(minMapq: int, filterBad: bool)

  /** All records lie on one reference. */
  predicate AllSameChr(g: seq<Record>) {
    forall i :: 0 <= i < |g| ==> g[i].chr == g[0].chr
  }

  /** The records of `g` before position `k` can be examined and pass `AdditionalChecks`. */
  predicate PassBefore(g: seq<Record>, k: int)
    requires 0 <= k <= |g|
  {
    forall j :: 0 <= j < k ==> Readable(g[j]) && AdditionalChecks(g[j])
  }

  /** The `AdditionalChecks` loop stops at the first failing record, so it examines a record
      only when all records before it passed; every record it examines can be examined. */
  predicate ChecksDefined(g: seq<Record>) {
    forall k :: 0 <= k < |g| && PassBefore(g, k) ==> Readable(g[k])
  }

  /** No record has a low mean quality, and some record is unmapped or on a decoy contig. */
  predicate DecoyRescue(g: seq<Record>) {
    && (forall i :: 0 <= i < |g| ==> !g[i].stats.meanPhredBelow31)
    && (exists i :: 0 <= i < |g| && (!g[i].flags.mapped || DecoyOrUnmapped(g[i].chr)))
  }

  /** Some record is soft-clipped beyond the limit. */
  predicate SoftClipped(g: seq<Record>) {
    exists i :: 0 <= i < |g| && g[i].stats.softClipOverLimit
  }

  /** Filter-bad mode reads qualities only in the `AdditionalChecks` loop, which a group
      reaches when it is not rescued as decoy or unmapped, has an over-soft-clipped record,
      and lies on one reference. Such a group must let that loop examine what it reaches. */
  predicate RescueDefined(g: seq<Record>) {
    !DecoyRescue(g) && SoftClipped(g) && AllSameChr(g) ==> ChecksDefined(g)
  }

  /** What `CheckConditions` needs of a group: nothing in default mode. */
  predicate Checkable(opts: Options, g: seq<Record>) {
    opts.filterBad ==> RescueDefined(g)
  }

  /** Default mode: every record is well mapped, not over-clipped and has short indels, and
      all records share one reference. */
  predicate DefaultAccepts(minMapq: int, g: seq<Record>) {
    && (forall i :: 0 <= i < |g| ==> g[i].stats.mapq >= minMapq)
    && (forall i :: 0 <= i < |g| ==> !g[i].stats.softClipOverLimit && !g[i].stats.hardClipOverLimit)
    && (forall i :: 0 <= i < |g| ==> g[i].stats.maxInsertion <= 3 && g[i].stats.maxDeletion <= 3)
    && AllSameChr(g)
  }

  /** Filter-bad mode: a group of good mean quality with an unmapped or decoy record, or a group
      with an over-soft-clipped record whose records share one reference and all pass
      `AdditionalChecks`. */
  predicate RescueAccepts(g: seq<Record>) {
    || DecoyRescue(g)
    || (SoftClipped(g) && AllSameChr(g) && PassBefore(g, |g|))
  }

  /** The group passes `CheckConditions`. */
  predicate Accepts(opts: Options, g: seq<Record>) {
    if opts.filterBad then RescueAccepts(g) else DefaultAccepts(opts.minMapq, g)
  }

  /** The `find_if` over the reference names: whether all equal the first one. */
  method SameChrCheck(records: seq<Record>) returns (same: bool)
    ensures same <==> AllSameChr(records)
  {
    if |records| == 0 {
      return true;
    }
    var i := 1;
    while i < |records|
      invariant 1 <= i <= |records|
      invariant forall k :: 0 <= k < i ==> records[k].chr == records[0].chr
    {
      if records[i].chr != records[0].chr {
        return false;
      }
      i := i + 1;
    }
    return true;
  }

  /** `CheckConditions`, loop by loop. The empty group passes in default mode and fails in
      filter-bad mode. */
  method CheckConditions(opts: Options, records: seq<Record>) returns (ok: bool)
    requires Checkable(opts, records)
    ensures ok == Accepts(opts, records)
    ensures |records| == 0 ==> ok == !opts.filterBad
  {
    if !opts.filterBad {
      ok := DefaultChecks(opts.minMapq, records);
    } else {
      ok := RescueChecks(records);
    }
  }

  /** The default-mode loops: mapping quality, clip ratios, indel lengths, one reference. */
  method DefaultChecks(minMapq: int, records: seq<Record>) returns (ok: bool)
    ensures ok == DefaultAccepts(minMapq, records)
  {
    var i := 0;
    while i < |records|
      invariant 0 <= i <= |records|
      invariant forall k :: 0 <= k < i ==> records[k].stats.mapq >= minMapq
    {
      if records[i].stats.mapq < minMapq {
        return false;
      }
      i := i + 1;
    }
    i := 0;
    while i < |records|
      invariant 0 <= i <= |records|
      invariant forall k :: 0 <= k < i ==> !records[k].stats.softClipOverLimit
    {
      if records[i].stats.softClipOverLimit {
        return false;
      }
      i := i + 1;
    }
    i := 0;
    while i < |records|
      invariant 0 <= i <= |records|
      invariant forall k :: 0 <= k < i ==> !records[k].stats.hardClipOverLimit
    {
      if records[i].stats.hardClipOverLimit {
        return false;
      }
      i := i + 1;
    }
    i := 0;
    while i < |records|
      invariant 0 <= i <= |records|
      invariant forall k :: 0 <= k < i ==> records[k].stats.maxInsertion <= 3 && records[k].stats.maxDeletion <= 3
    {
      if records[i].stats.maxInsertion > 3 || records[i].stats.maxDeletion > 3 {
        return false;
      }
      i := i + 1;
    }
    ok := SameChrCheck(records);
  }

  /** The inner loop of the rescue: whether every record passes `AdditionalChecks`; it stops
      at the first record that fails. */
  method AllAdditionalChecks(records: seq<Record>) returns (ok: bool)
    requires ChecksDefined(records)
    ensures ok <==> forall k :: 0 <= k < |records| ==> Readable(records[k]) && AdditionalChecks(records[k])
  {
    var j := 0;
    while j < |records|
      invariant 0 <= j <= |records|
      invariant PassBefore(records, j)
    {
      assert Readable(records[j]);
      if !AdditionalChecks(records[j]) {
        return false;
      }
      j := j + 1;
    }
    return true;
  }

  /** The filter-bad loops: the quality scan that stops at the first record of low mean
      quality, then the search for an over-soft-clipped record. */
  method RescueChecks(records: seq<Record>) returns (ok: bool)
    requires RescueDefined(records)
    ensures ok == RescueAccepts(records)
    ensures DecoyRescue(records) ==> ok
  {
    var unmapped := false;
    var decoy := false;
    var good := true;
    var i := 0;
    while i < |records| && good
      invariant 0 <= i <= |records|
      invariant good ==> forall k :: 0 <= k < i ==> !records[k].stats.meanPhredBelow31
      invariant !good ==> 0 < i && records[i - 1].stats.meanPhredBelow31
      invariant good ==> (unmapped <==> exists k :: 0 <= k < i && !records[k].flags.mapped)
      invariant good ==> (decoy <==> exists k :: 0 <= k < i && DecoyOrUnmapped(records[k].chr))
    {
      if records[i].stats.meanPhredBelow31 {
        good := false;
      } else {
        if !records[i].flags.mapped {
          unmapped := true;
        }
        if DecoyOrUnmapped(records[i].chr) {
          decoy := true;
        }
      }
      i := i + 1;
    }
    if good && (decoy || unmapped) {
      return true;
    }
    assert !DecoyRescue(records);
    i := 0;
    while i < |records|
      invariant 0 <= i <= |records|
      invariant forall k :: 0 <= k < i ==> !records[k].stats.softClipOverLimit
    {
      if records[i].stats.softClipOverLimit {
        var same := SameChrCheck(records);
        if !same {
          return false;
        }
        ok := AllAdditionalChecks(records);
        return;
      }
      i := i + 1;
    }
    return false;
  }

  /** A group of good mean quality holding a decoy record is rescued without any quality
      being read: a hard-clipped partner whose alignment start lies beyond its qualities
      does not matter. */
  lemma DecoyGroupRescued(minMapq: int, a: Record, b: Record)
    requires a.chr == "hs37d5"
    requires !a.stats.meanPhredBelow31 && !b.stats.meanPhredBelow31
    ensures Checkable(Options(minMapq, true), [a, b])
    ensures Accepts(Options(minMapq, true), [a, b])
  {
    assert OccursAt(a.chr, "hs", 0);
    assert DecoyOrUnmapped([a, b][0].chr);
  }

  // ---------------------------------------------------------------------------
  // The driver
  // ---------------------------------------------------------------------------

  /** `CheckConditions` under fixed options, as a predicate on groups. */
  function Verdict(opts: Options): seq<Record> -> bool {
    g => Accepts(opts, g)
  }

  /** Every run of one query name in the stream can be checked. */
  predicate StreamCheckable(opts: Options, s: seq<Record>) {
    forall g :: g in Groups(s) ==> Checkable(opts, g)
  }

  /** Every run closed after a prefix of the stream is a run of the whole stream. */
  lemma {:induction false} ClosedWithin(s: seq<Record>, i: int)
    requires 0 <= i <= |s|
    ensures forall g :: g in Closed(s[..i]) ==> g in Groups(s)
    decreases |s| - i
  {
    if i == |s| {
      assert s[..i] == s;
      LastRun(s);
    } else {
      ClosedWithin(s, i + 1);
      assert s[..i + 1] == s[..i] + [s[i]];
      ReadNext(s[..i], s[i]);
    }
  }

  /** Checks the collected group `g` and writes it whole if it passes, after the output
      `out` of the groups `gs` before it. */
  method Flush(opts: Options, gs: seq<seq<Record>>, g: seq<Record>, out: seq<Record>)
    returns (out': seq<Record>)
    requires Checkable(opts, g) && out == Kept(Verdict(opts), gs)
    ensures out' == Kept(Verdict(opts), gs + (if |g| == 0 then [] else [g]))
  {
    KeptSnoc(Verdict(opts), gs, g);
    var pass := CheckConditions(opts, g);
    out' := if pass then out + g else out;
  }

  /** `runFilter`'s loop: records are collected while the query name repeats; when it changes
      the collected group is checked and written whole if accepted, and the last group is
      checked after the loop. */
  method RunFilter(opts: Options, s: seq<Record>) returns (out: seq<Record>)
    requires StreamCheckable(opts, s)
    ensures out == Kept(Verdict(opts), Groups(s))
  {
    var records: seq<Record> := [];
    var current := "";
    out := [];
    var i := 0;
    while i < |s|
      invariant 0 <= i <= |s|
      invariant records == Open(s[..i])
      invariant current == if i == 0 then "" else records[0].qname
      invariant out == Kept(Verdict(opts), Closed(s[..i]))
    {
      records, current, out := ReadRecord(opts, s, i, records, current, out);
      i := i + 1;
    }
    assert s[..i] == s;
    LastRun(s);
    assert |records| > 0 ==> records in Groups(s);
    out := Flush(opts, Closed(s), records, out);
  }

  /** One iteration of the record loop: a new query name checks and flushes the collected
      group and starts a new one, a repeated name extends the collected group. */
  method ReadRecord(opts: Options, s: seq<Record>, i: int, records: seq<Record>, current: string,
                    out: seq<Record>)
    returns (records': seq<Record>, current': string, out': seq<Record>)
    requires StreamCheckable(opts, s) && 0 <= i < |s|
    requires records == Open(s[..i])
    requires current == if i == 0 then "" else records[0].qname
    requires out == Kept(Verdict(opts), Closed(s[..i]))
    ensures records' == Open(s[..i + 1]) && |records'| > 0
    ensures current' == records'[0].qname
    ensures out' == Kept(Verdict(opts), Closed(s[..i + 1]))
  {
    var r := s[i];
    NextRecord(s, i, records, current);
    if current != r.qname {
      ClosedWithin(s, i + 1);
      assert |records| > 0 ==> records in Closed(s[..i + 1]);
      out' := Flush(opts, Closed(s[..i]), records, out);
      records' := [r];
      current' := r.qname;
    } else {
      out' := out;
      records' := records + [r];
      current' := current;
    }
  }
}
