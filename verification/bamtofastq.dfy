/** `bxtools bamtofastq`: rebuilds both reads of every query name from its alignments and
    writes them as FASTQ entries carrying the BX tag. */
module BamToFastq {
  import opened Wrappers
  import opened Seqs
  import opened Strings
  import opened Records

  // ---------------------------------------------------------------------------
  // Complement
  // ---------------------------------------------------------------------------

  /** The symbols the complement table pairs up: the four bases in both cases, their numeric
      codes 0..3 (the byte values, not the digits), and N in both cases. */
  predicate InAlphabet(c: char) {
    c in "ACGTacgtNn" || c == '\0' || c == '\U{1}' || c == '\U{2}' || c == '\U{3}'
  }

  /** The complement table, as (symbol, complement) pairs. */
  const ComplementPairs: set<(char, char)> := {
    ('A', 'T'), ('T', 'A'), ('C', 'G'), ('G', 'C'),
    ('a', 't'), ('t', 'a'), ('c', 'g'), ('g', 'c'),
    ('\0', '\U{3}'), ('\U{3}', '\0'), ('\U{1}', '\U{2}'), ('\U{2}', '\U{1}'),
    ('N', 'N'), ('n', 'n')
  }

  /** `nucl_complement`: complements a base symbol; anything else becomes 'n'. */
  function Complement(c: char): (d: char)
    ensures InAlphabet(d)
    ensures InAlphabet(c) ==> (c, d) in ComplementPairs
    ensures !InAlphabet(c) ==> d == 'n'
  {
    match c
    case '\0' => '\U{3}'
    case 'a' => 't'
    case 'A' => 'T'
    case '\U{1}' => '\U{2}'
    case 'c' => 'g'
    case 'C' => 'G'
    case '\U{2}' => '\U{1}'
    case 'g' => 'c'
    case 'G' => 'C'
    case '\U{3}' => '\0'
    case 't' => 'a'
    case 'T' => 'A'
    case 'N' => 'N'
    case 'n' => 'n'
    case _ => 'n'
  }

  lemma ComplementInvolutive(c: char)
    requires InAlphabet(c)
    ensures Complement(Complement(c)) == c
  {
  }

  /** Every symbol of `s` is in the complement alphabet. */
  predicate AllInAlphabet(s: string) {
    forall i :: 0 <= i < |s| ==> InAlphabet(s[i])
  }

  /** `ReverseComplement`: position i holds the complement of position |s|-1-i. */
  function ReverseComplement(s: string): (r: string)
    ensures |r| == |s|
    ensures forall i :: 0 <= i < |s| ==> r[i] == Complement(s[|s| - 1 - i])
    decreases |s|
  {
    if |s| == 0 then "" else [Complement(s[|s| - 1])] + ReverseComplement(s[..|s| - 1])
  }

  /** Reverse-complementing twice restores any string over the complement alphabet. */
  lemma ReverseComplementInvolutive(s: string)
    requires AllInAlphabet(s)
    ensures ReverseComplement(ReverseComplement(s)) == s
  {
    var r := ReverseComplement(s);
    var rr := ReverseComplement(r);
    forall i | 0 <= i < |s|
      ensures rr[i] == s[i]
    {
      ComplementInvolutive(s[i]);
    }
  }

  /** `std::reverse`: position i holds position |s|-1-i. */
  function Reverse(s: string): (r: string)
    ensures |r| == |s|
    ensures forall i :: 0 <= i < |s| ==> r[i] == s[|s| - 1 - i]
    decreases |s|
  {
    if |s| == 0 then "" else [s[|s| - 1]] + Reverse(s[..|s| - 1])
  }

  // ---------------------------------------------------------------------------
  // Cigar arithmetic
  // ---------------------------------------------------------------------------

  /** The length of a leading hard clip, or 0. */
  function StartOffset(c: seq<CigarOp>): nat {
    if |c| != 0 && c[0].kind == 'H' then c[0].len else 0
  }

  /** The length of a trailing hard clip, or 0. */
  function EndOffset(c: seq<CigarOp>): nat {
    if |c| != 0 && c[|c| - 1].kind == 'H' then c[|c| - 1].len else 0
  }

  /** The sum of all operation lengths (the cigar's total length). */
  function TotalLength(c: seq<CigarOp>): nat
    decreases |c|
  {
    if |c| == 0 then 0 else c[0].len + TotalLength(c[1..])
  }

  /** The sum of the lengths of the 'D' operations. */
  function DeletedLength(c: seq<CigarOp>): nat
    decreases |c|
  {
    if |c| == 0 then 0 else (if c[0].kind == 'D' then c[0].len else 0) + DeletedLength(c[1..])
  }

  /** The sum of the lengths of all operations other than 'D'. */
  function ReadLength(c: seq<CigarOp>): nat
    decreases |c|
  {
    if |c| == 0 then 0 else (if c[0].kind == 'D' then 0 else c[0].len) + ReadLength(c[1..])
  }

  /** The span of the rebuilt read: the total length less the deleted bases, which is the
      length of the operations that consume read bases or are clipped (never negative),
      and which covers both hard clips. */
  function Span(c: seq<CigarOp>): (n: int)
    ensures n == ReadLength(c)
    ensures StartOffset(c) <= n && EndOffset(c) <= n
  {
    SpanIsReadLength(c);
    HardClipsWithinReadLength(c);
    TotalLength(c) - DeletedLength(c)
  }

  lemma {:induction false} SpanIsReadLength(c: seq<CigarOp>)
    ensures TotalLength(c) == DeletedLength(c) + ReadLength(c)
    decreases |c|
  {
    if |c| > 0 {
      SpanIsReadLength(c[1..]);
    }
  }

  lemma {:induction false} ReadLengthSnoc(c: seq<CigarOp>, op: CigarOp)
    ensures ReadLength(c + [op]) == ReadLength(c) + (if op.kind == 'D' then 0 else op.len)
    decreases |c|
  {
    if |c| > 0 {
      assert (c + [op])[1..] == c[1..] + [op];
      ReadLengthSnoc(c[1..], op);
    } else {
      assert [op][1..] == [];
    }
  }

  lemma HardClipsWithinReadLength(c: seq<CigarOp>)
    ensures StartOffset(c) <= ReadLength(c) && EndOffset(c) <= ReadLength(c)
  {
    if |c| > 0 {
      var n := |c| - 1;
      assert c == c[..n] + [c[n]];
      ReadLengthSnoc(c[..n], c[n]);
    }
  }

  // ---------------------------------------------------------------------------
  // Read buffers
  // ---------------------------------------------------------------------------

  /** `s.resize(n, fill)`: cut to `n` characters, or extended with `fill` up to `n`. */
  function Resize(s: string, n: nat, fill: char): (r: string)
    ensures |r| == n
    ensures forall i :: 0 <= i < n ==> r[i] == if i < |s| then s[i] else fill
  {
    if n <= |s| then s[..n] else s + seq(n - |s|, _ => fill)
  }

  /** The end of the part `s.replace(pos, count, t)` removes from a string of length `n`:
      `count` characters from `pos`, as many as there are, and all of them when a negative
      `count` wraps to a huge unsigned length. */
  function ReplacedEnd(n: nat, pos: nat, count: int): (e: nat)
    requires pos <= n
    ensures pos <= e <= n
  {
    if count < 0 || pos + count > n then n else pos + count
  }

  /** `r` is `s` with the part from `pos` to `ReplacedEnd` replaced by `t`: the prefix, then
      `t`, then the kept tail, and nothing else. */
  predicate Spliced(s: string, pos: nat, count: int, t: string, r: string)
    requires pos <= |s|
  {
    var e := ReplacedEnd(|s|, pos, count);
    && |r| == pos + |t| + (|s| - e)
    && r[..pos] == s[..pos]
    && r[pos..pos + |t|] == t
    && r[pos + |t|..] == s[e..]
  }

  /** `s.replace(pos, count, t)`: None when `pos > |s|` (the library throws
      `std::out_of_range`); otherwise the replaced string. */
  function Replace(s: string, pos: nat, count: int, t: string): (r: Option<string>)
    ensures r.None? <==> pos > |s|
    ensures r.Some? ==> Spliced(s, pos, count, t, r.value)
  {
    if pos > |s| then None
    else
      var e := ReplacedEnd(|s|, pos, count);
      var v := s[..pos] + t + s[e..];
      assert v[..pos] == s[..pos] && v[pos..pos + |t|] == t && v[pos + |t|..] == s[e..];
      Some(v)
  }

  /** The bases and qualities rebuilt so far for one read of the pair. */
  datatype Buffer = Buffer(read: string, qual: string)

  /** A buffer shorter than `span` has its bases padded with '?' to `span`, and its
      qualities resized to `span` as well; a long enough buffer is left alone. */
  function Pad(b: Buffer, span: nat): (p: Buffer)
    ensures |b.read| < span ==> |p.read| == span && |p.qual| == span
    ensures |b.read| < span ==> forall i :: 0 <= i < span ==> p.read[i] == if i < |b.read| then b.read[i] else '?'
    ensures |b.read| < span ==> forall i :: 0 <= i < span ==> p.qual[i] == if i < |b.qual| then b.qual[i] else '?'
    ensures |b.read| >= span ==> p == b
  {
    if |b.read| < span then Buffer(Resize(b.read, span, '?'), Resize(b.qual, span, '?')) else b
  }

  /** The bases of a record in read orientation: reverse-complemented on the reverse strand. */
  function OrientedBases(r: Record): string {
    if r.flags.reverse then ReverseComplement(r.sequence) else r.sequence
  }

  /** The qualities of a record in read orientation: reversed on the reverse strand. */
  function OrientedQualities(r: Record): string {
    if r.flags.reverse then Reverse(r.qualities) else r.qualities
  }

  /** Splices one alignment into a read buffer: pad to the span, then replace the part
      between the hard clips by the oriented bases and qualities. None when the replace
      throws. */
  function Splice(b: Buffer, r: Record): (o: Option<Buffer>)
    ensures var start := StartOffset(r.cigar);
            var p := Pad(b, Span(r.cigar));
            var bases := OrientedBases(r);
            var quals := OrientedQualities(r);
            && start <= Span(r.cigar) <= |p.read|
            && (o.Some? <==> start <= |p.qual|)
            && (o.Some? ==> Spliced(p.read, start, Span(r.cigar) - start - EndOffset(r.cigar), bases, o.value.read))
            && (o.Some? ==> Spliced(p.qual, start, Span(r.cigar) - start - EndOffset(r.cigar), quals, o.value.qual))
  {
    var span := Span(r.cigar);
    var start := StartOffset(r.cigar);
    var count := span - start - EndOffset(r.cigar);
    var p := Pad(b, span);
    var read := Replace(p.read, start, count, OrientedBases(r));
    var qual := Replace(p.qual, start, count, OrientedQualities(r));
    if read.None? || qual.None? then None else Some(Buffer(read.value, qual.value))
  }

  /** The pair of read buffers being rebuilt. */
  datatype Buffers = Buffers(first: Buffer, second: Buffer)

  /** One alignment of the group: secondary alignments contribute nothing, first-of-pair
      ones go to the first buffer and the others to the second. None when a splice throws. */
  function Feed(bs: Buffers, r: Record): (o: Option<Buffers>)
    ensures r.flags.secondary ==> o == Some(bs)
    ensures o.Some? && r.flags.firstOfPair ==> o.value.second == bs.second
    ensures o.Some? && !r.flags.firstOfPair ==> o.value.first == bs.first
  {
    if r.flags.secondary then Some(bs)
    else if r.flags.firstOfPair then
      match Splice(bs.first, r)
      case None => None
      case Some(b) => Some(Buffers(b, bs.second))
    else
      match Splice(bs.second, r)
      case None => None
      case Some(b) => Some(Buffers(bs.first, b))
  }

  /** A primary or supplementary alignment of the first read. */
  predicate ForFirst(r: Record) {
    !r.flags.secondary && r.flags.firstOfPair
  }

  /** A primary or supplementary alignment of the second read. */
  predicate ForSecond(r: Record) {
    !r.flags.secondary && !r.flags.firstOfPair
  }

  /** One buffer after splicing the alignments `rs` into it in order; None once one throws. */
  function SpliceAll(b: Buffer, rs: seq<Record>): Option<Buffer>
    decreases |rs|
  {
    if |rs| == 0 then Some(b)
    else
      match Splice(b, rs[0])
      case None => None
      case Some(c) => SpliceAll(c, rs[1..])
  }

  /** Both buffers when both are present. */
  function Both(x: Option<Buffer>, y: Option<Buffer>): Option<Buffers> {
    if x.Some? && y.Some? then Some(Buffers(x.value, y.value)) else None
  }

  /** Both read buffers after the alignments of `rs`, in order; None once a splice throws.
      The two reads are rebuilt independently: the first buffer only from the first read's
      primary and supplementary alignments, the second only from the second read's. */
  function Fill(bs: Buffers, rs: seq<Record>): (o: Option<Buffers>)
    ensures o == Both(SpliceAll(bs.first, Filter(ForFirst, rs)), SpliceAll(bs.second, Filter(ForSecond, rs)))
    decreases |rs|
  {
    if |rs| == 0 then Some(bs)
    else
      assert rs == [rs[0]] + rs[1..];
      SplitStep(bs, rs[0], rs[1..]);
      match Feed(bs, rs[0])
      case None => None
      case Some(next) => Fill(next, rs[1..])
  }

  /** Both buffers from the alignments `[r] + rest`: None when feeding `r` throws, and
      otherwise both buffers from `rest` after feeding `r`. */
  lemma SplitStep(bs: Buffers, r: Record, rest: seq<Record>)
    ensures var both := Both(SpliceAll(bs.first, Filter(ForFirst, [r] + rest)),
                             SpliceAll(bs.second, Filter(ForSecond, [r] + rest)));
            match Feed(bs, r)
            case None => both == None
            case Some(next) =>
              both == Both(SpliceAll(next.first, Filter(ForFirst, rest)),
                           SpliceAll(next.second, Filter(ForSecond, rest)))
  {
    SpliceStep(bs.first, ForFirst, r, rest);
    SpliceStep(bs.second, ForSecond, r, rest);
  }

  /** One buffer from the alignments `[r] + rest` that `keep` selects: `r` is spliced first
      when selected. */
  lemma SpliceStep(b: Buffer, keep: Record -> bool, r: Record, rest: seq<Record>)
    ensures SpliceAll(b, Filter(keep, [r] + rest)) ==
      if !keep(r) then SpliceAll(b, Filter(keep, rest))
      else match Splice(b, r)
        case None => None
        case Some(c) => SpliceAll(c, Filter(keep, rest))
  {
    var f := Filter(keep, rest);
    FilterConcat(keep, [r], rest);
    FilterSingle(keep, r);
    if keep(r) {
      assert ([r] + f)[0] == r && ([r] + f)[1..] == f;
    } else {
      assert [] + f == f;
    }
  }

  /** Filling from a concatenation fills from the first part, then from the second. */
  lemma {:induction false} FillAppend(bs: Buffers, a: seq<Record>, b: seq<Record>)
    ensures Fill(bs, a + b) == if Fill(bs, a).None? then None else Fill(Fill(bs, a).value, b)
    decreases |a|
  {
    if |a| == 0 {
      assert a + b == b;
    } else {
      assert (a + b)[0] == a[0] && (a + b)[1..] == a[1..] + b;
      match Feed(bs, a[0])
      case None =>
      case Some(next) => FillAppend(next, a[1..], b);
    }
  }

  predicate NotSecondary(r: Record) {
    !r.flags.secondary
  }

  /** Secondary alignments are skipped: filling from a group equals filling from its
      primary and supplementary alignments alone. */
  lemma {:induction false} SecondaryIgnored(bs: Buffers, rs: seq<Record>)
    ensures Fill(bs, rs) == Fill(bs, Filter(NotSecondary, rs))
    decreases |rs|
  {
    if |rs| > 0 {
      var r := rs[0];
      var rest := Filter(NotSecondary, rs[1..]);
      assert rs == [r] + rs[1..];
      FilterConcat(NotSecondary, [r], rs[1..]);
      FilterSingle(NotSecondary, r);
      if r.flags.secondary {
        assert Filter(NotSecondary, rs) == rest;
        SecondaryIgnored(bs, rs[1..]);
      } else {
        assert Filter(NotSecondary, rs) == [r] + rest;
        assert ([r] + rest)[1..] == rest;
        match Feed(bs, r)
        case None =>
        case Some(next) => SecondaryIgnored(next, rs[1..]);
      }
    }
  }

  // ---------------------------------------------------------------------------
  // FASTQ text
  // ---------------------------------------------------------------------------

  /** The header line: '@', the query name, and " BX:Z:" with the barcode when the tag is present. */
  function Header(name: string, bx: Option<string>): string {
    "@" + name + (if bx.Some? then " BX:Z:" + bx.value else "")
  }

  /** Four lines, each ended by a newline. */
  lemma UnlinesFour(a: string, b: string, c: string, d: string)
    ensures Unlines([a, b, c, d]) == a + "\n" + b + "\n" + c + "\n" + d + "\n"
  {
    var ls := [a, b, c, d];
    assert Unlines(ls[3..]) == d + "\n";
    assert Unlines(ls[2..]) == c + "\n" + d + "\n";
    assert Unlines(ls[1..]) == b + "\n" + c + "\n" + d + "\n";
  }

  /** The header holds no newline when the name and the barcode hold none. */
  lemma HeaderOneLine(name: string, bx: Option<string>)
    requires '\n' !in name && (bx.Some? ==> '\n' !in bx.value)
    ensures '\n' !in Header(name, bx)
  {
    if bx.Some? {
      assert Header(name, bx) == "@" + name + " BX:Z:" + bx.value;
    } else {
      assert Header(name, bx) == "@" + name;
    }
  }

  /** One FASTQ entry as streamed: header, bases, "+", qualities, each ended by a newline.
      Free of newlines inside, it reads back as exactly those four lines. */
  function FastqEntry(name: string, bx: Option<string>, read: string, qual: string): (e: string)
    ensures e == Unlines([Header(name, bx), read, "+", qual])
    ensures '\n' !in name && (bx.Some? ==> '\n' !in bx.value) && '\n' !in read && '\n' !in qual ==>
      Lines(e) == [Header(name, bx), read, "+", qual]
  {
    var h := Header(name, bx);
    UnlinesFour(h, read, "+", qual);
    FastqEntryLines(name, bx, read, qual);
    h + "\n" + read + "\n" + "+" + "\n" + qual + "\n"
  }

  lemma FastqEntryLines(name: string, bx: Option<string>, read: string, qual: string)
    ensures '\n' !in name && (bx.Some? ==> '\n' !in bx.value) && '\n' !in read && '\n' !in qual ==>
      Lines(Unlines([Header(name, bx), read, "+", qual])) == [Header(name, bx), read, "+", qual]
  {
    if '\n' !in name && (bx.Some? ==> '\n' !in bx.value) && '\n' !in read && '\n' !in qual {
      HeaderOneLine(name, bx);
      LinesOfUnlines([Header(name, bx), read, "+", qual]);
    }
  }

  /** What `processReadPair` does with one group of records. */
  datatype PairOutput = Nothing | Written(first: string, second: string) | OutOfRange

  /** `processReadPair`: an empty group writes nothing; otherwise both reads are rebuilt and
      written under the group's first query name and BX tag, even when no alignment
      reached a buffer. */
  function ProcessReadPair(records: seq<Record>): (o: PairOutput)
    ensures |records| == 0 <==> o.Nothing?
  {
    if |records| == 0 then Nothing
    else
      match Fill(Buffers(Buffer("", ""), Buffer("", "")), records)
      case None => OutOfRange
      case Some(Buffers(b1, b2)) =>
        var name := records[0].qname;
        Written(FastqEntry(name, records[0].bx, b1.read, b1.qual),
                FastqEntry(name, records[0].bx, b2.read, b2.qual))
  }

  /** A non-empty group throws exactly when splicing the first read's or the second read's
      alignments throws. Otherwise each file receives four lines: the header with the
      group's first query name and its BX tag, the rebuilt bases of that file's read, "+",
      and the rebuilt qualities. */
  lemma PairContent(records: seq<Record>)
    requires |records| > 0
    ensures var e := Buffer("", "");
            var f1 := SpliceAll(e, Filter(ForFirst, records));
            var f2 := SpliceAll(e, Filter(ForSecond, records));
            var h := Header(records[0].qname, records[0].bx);
            var o := ProcessReadPair(records);
            && (o.OutOfRange? <==> f1.None? || f2.None?)
            && (o.Written? <==> f1.Some? && f2.Some?)
            && (o.Written? ==>
                  && o.first == Unlines([h, f1.value.read, "+", f1.value.qual])
                  && o.second == Unlines([h, f2.value.read, "+", f2.value.qual]))
  {
    var f := Fill(Buffers(Buffer("", ""), Buffer("", "")), records);
    if f.Some? {
      var b1, b2 := f.value.first, f.value.second;
      assert ProcessReadPair(records) ==
        Written(FastqEntry(records[0].qname, records[0].bx, b1.read, b1.qual),
                FastqEntry(records[0].qname, records[0].bx, b2.read, b2.qual));
    }
  }

  /** An alignment without hard clips, spliced into an empty buffer, gives back its bases and
      qualities in read orientation. */
  lemma UnclippedRestored(r: Record)
    requires StartOffset(r.cigar) == 0 && EndOffset(r.cigar) == 0
    ensures Splice(Buffer("", ""), r) == Some(Buffer(OrientedBases(r), OrientedQualities(r)))
  {
    var span := Span(r.cigar);
    var p := Pad(Buffer("", ""), span);
    assert |p.read| == span && |p.qual| == span;
    var t := OrientedBases(r);
    var q := OrientedQualities(r);
    assert p.read[..0] + t + p.read[span..] == t;
    assert p.qual[..0] + q + p.qual[span..] == q;
  }

  /** The round trip: a group holding one unclipped alignment of each read, both primary,
      writes each read back as its alignment's bases and qualities in read orientation. */
  lemma UnclippedPairRestored(a: Record, b: Record)
    requires ForFirst(a) && ForSecond(b)
    requires StartOffset(a.cigar) == 0 && EndOffset(a.cigar) == 0
    requires StartOffset(b.cigar) == 0 && EndOffset(b.cigar) == 0
    ensures var h := Header(a.qname, a.bx);
            ProcessReadPair([a, b]) ==
              Written(Unlines([h, OrientedBases(a), "+", OrientedQualities(a)]),
                      Unlines([h, OrientedBases(b), "+", OrientedQualities(b)]))
  {
    var e := Buffer("", "");
    FilterConcat(ForFirst, [a], [b]);
    FilterConcat(ForSecond, [a], [b]);
    FilterSingle(ForFirst, a);
    FilterSingle(ForFirst, b);
    FilterSingle(ForSecond, a);
    FilterSingle(ForSecond, b);
    assert [a, b] == [a] + [b];
    assert Filter(ForFirst, [a, b]) == [a];
    assert Filter(ForSecond, [a, b]) == [b];
    UnclippedRestored(a);
    UnclippedRestored(b);
    assert SpliceAll(e, [a]) == Some(Buffer(OrientedBases(a), OrientedQualities(a)));
    assert SpliceAll(e, [b]) == Some(Buffer(OrientedBases(b), OrientedQualities(b)));
    PairContent([a, b]);
  }

  // ---------------------------------------------------------------------------
  // Output names
  // ---------------------------------------------------------------------------

  /** The input file name without its directory and without its last four characters; the
      unsigned length wraps when the file name is shorter than four characters, and then
      the whole file name is kept. */
  function Basename(path: string): (b: string)
    ensures '/' !in b
    ensures var p := LastIndexOf(path, '/') + 1;
            if |path| - p >= 4 then b == path[p..|path| - 4] else b == path[p..]
  {
    var p := LastIndexOf(path, '/') + 1;
    var n := |path| - p - 4;
    if n >= 0 then path[p..p + n] else path[p..]
  }

  /** The base name of "dir/name.bam" is "name". */
  lemma BasenameOfBamPath(dir: string, name: string)
    requires '/' !in name
    ensures Basename(dir + "/" + name + ".bam") == name
  {
    var path := dir + "/" + name + ".bam";
    var p := LastIndexOf(path, '/') + 1;
    assert path[|dir|] == '/';
    assert forall m :: |dir| < m < |path| ==> path[m] != '/' by {
      forall m | |dir| < m < |path| ensures path[m] != '/' {
        if m < |dir| + 1 + |name| {
          assert path[m] == name[m - |dir| - 1];
        } else {
          assert path[m] == ".bam"[m - |dir| - 1 - |name|];
        }
      }
    }
    assert p == |dir| + 1;
    assert path[p..|path| - 4] == name;
  }

  /** The two FASTQ files written into `folder`. */
  function OutputPaths(folder: string, path: string): (p: (string, string))
    ensures |p.0| > |folder| && p.0[..|folder| + 1] == folder + "/"
    ensures |p.1| > |folder| && p.1[..|folder| + 1] == folder + "/"
    ensures p.0 != p.1
  {
    var stem := folder + "/" + Basename(path);
    var r1 := stem + "_R1.fastq";
    var r2 := stem + "_R2.fastq";
    assert r1[|stem| + 2] == '1' && r2[|stem| + 2] == '2';
    assert r1[..|folder| + 1] == folder + "/" && r2[..|folder| + 1] == folder + "/";
    (r1, r2)
  }

  /** The FASTQ files for "dir/name.bam" are "name_R1.fastq" and "name_R2.fastq" in the
      output folder. */
  lemma OutputPathsOfBam(folder: string, dir: string, name: string)
    requires '/' !in name
    ensures OutputPaths(folder, dir + "/" + name + ".bam") ==
      (folder + "/" + name + "_R1.fastq", folder + "/" + name + "_R2.fastq")
  {
    BasenameOfBamPath(dir, name);
  }

  // ---------------------------------------------------------------------------
  // The driver
  // ---------------------------------------------------------------------------

  /** The text of both FASTQ files so far, and whether an exception ended the run. */
  datatype FastqRun = FastqRun(r1: string, r2: string, failed: bool)

  /** Appends what one group produced; after an exception nothing more is written. */
  function Apply(run: FastqRun, o: PairOutput): FastqRun {
    if run.failed then run
    else match o
      case Nothing => run
      case Written(a, b) => FastqRun(run.r1 + a, run.r2 + b, false)
      case OutOfRange => FastqRun(run.r1, run.r2, true)
  }

  /** The output of processing the groups `gs` one after another. */
  function EmitGroups(gs: seq<seq<Record>>): FastqRun
    decreases |gs|
  {
    if |gs| == 0 then FastqRun("", "", false)
    else Apply(EmitGroups(gs[..|gs| - 1]), ProcessReadPair(gs[|gs| - 1]))
  }

  /** `runBamToFastq`'s loop: records are collected while the query name repeats and the
      collected group is processed when it changes; the last group is processed after the
      loop. Every maximal run of one query name is processed exactly once, in stream order. */
  method RunBamToFastq(s: seq<Record>) returns (run: FastqRun)
    ensures run == EmitGroups(Groups(s))
  {
    var records: seq<Record> := [];
    var current := "";
    run := FastqRun("", "", false);
    var i := 0;
    while i < |s|
      invariant 0 <= i <= |s|
      invariant records == Open(s[..i])
      invariant current == if i == 0 then "" else records[0].qname
      invariant run == EmitGroups(Closed(s[..i]))
    {
      records, current, run := ReadRecord(s, i, records, current, run);
      i := i + 1;
    }
    assert s[..i] == s;
    LastRun(s);
    run := Emit(run, Closed(s), records);
  }

  /** One iteration of the record loop: a new query name processes the collected group and
      starts a new one, a repeated name extends the collected group. */
  method ReadRecord(s: seq<Record>, i: int, records: seq<Record>, current: string, run: FastqRun)
    returns (records': seq<Record>, current': string, run': FastqRun)
    requires 0 <= i < |s|
    requires records == Open(s[..i])
    requires current == if i == 0 then "" else records[0].qname
    requires run == EmitGroups(Closed(s[..i]))
    ensures records' == Open(s[..i + 1]) && |records'| > 0
    ensures current' == records'[0].qname
    ensures run' == EmitGroups(Closed(s[..i + 1]))
  {
    var r := s[i];
    NextRecord(s, i, records, current);
    if current != r.qname {
      run' := Emit(run, Closed(s[..i]), records);
      records' := [r];
      current' := r.qname;
    } else {
      run' := run;
      records' := records + [r];
      current' := current;
    }
  }

  /** Processes one completed group (none before the first record). */
  method Emit(run: FastqRun, ghost gs: seq<seq<Record>>, g: seq<Record>) returns (run': FastqRun)
    requires run == EmitGroups(gs)
    ensures run' == EmitGroups(gs + (if |g| == 0 then [] else [g]))
  {
    EmitGroupsSnoc(gs, g);
    run' := Apply(run, ProcessReadPair(g));
  }

  lemma EmitGroupsSnoc(gs: seq<seq<Record>>, g: seq<Record>)
    ensures EmitGroups(gs + (if |g| == 0 then [] else [g])) == Apply(EmitGroups(gs), ProcessReadPair(g))
  {
    if |g| > 0 {
      assert (gs + [g])[..|gs|] == gs;
    } else {
      assert gs + [] == gs;
    }
  }
}
