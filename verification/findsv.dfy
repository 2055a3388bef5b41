/** `bxtools findsv`: count the deletions found along the leading match/deletion operations
    of unclipped mapped records, over several files, and report the (position, length) pairs
    seen more than five times. */
module FindSv {
  import opened Seqs
  import opened Records

  /** Unmapped records and records with any clipping contribute no deletions. */
  predicate Skipped(r: Record) {
    !r.flags.mapped || r.stats.numSoftClip > 0 || r.stats.numHardClip > 0
  }

  /** A deletion of `len` reference bases starting at reference position `pos`. */
  datatype Event = Event(pos: int, len: int)

  /** The walk over the cigar from reference position `cursor`: 'M' advances the cursor,
      'D' records a deletion at the cursor and advances past it, and any other operation
      ends the walk. */
  function Walk(cigar: seq<CigarOp>, cursor: int): (es: seq<Event>)
    ensures |es| <= |cigar|
    ensures forall k :: 0 <= k < |es| ==> es[k].pos >= cursor && es[k].len >= 0
    decreases |cigar|
  {
    if |cigar| == 0 then []
    else if cigar[0].kind == 'M' then Walk(cigar[1..], cursor + cigar[0].len)
    else if cigar[0].kind == 'D' then [Event(cursor, cigar[0].len)] + Walk(cigar[1..], cursor + cigar[0].len)
    else []
  }

  /** Every operation is a match or a deletion. */
  predicate MatchesAndDeletions(cigar: seq<CigarOp>) {
    forall k :: 0 <= k < |cigar| ==> cigar[k].kind == 'M' || cigar[k].kind == 'D'
  }

  /** The reference bases the operations cover. */
  function RefLength(cigar: seq<CigarOp>): nat
    decreases |cigar|
  {
    if |cigar| == 0 then 0 else cigar[0].len + RefLength(cigar[1..])
  }

  /** A walk through matches and deletions continues where it left off. */
  lemma {:induction false} WalkAppend(a: seq<CigarOp>, b: seq<CigarOp>, cursor: int)
    requires MatchesAndDeletions(a)
    ensures Walk(a + b, cursor) == Walk(a, cursor) + Walk(b, cursor + RefLength(a))
    decreases |a|
  {
    if |a| == 0 {
      assert a + b == b;
    } else {
      assert (a + b)[0] == a[0];
      assert (a + b)[1..] == a[1..] + b;
      WalkAppend(a[1..], b, cursor + a[0].len);
    }
  }

  /** The first operation that is neither 'M' nor 'D' ends the walk: what follows it is ignored. */
  lemma WalkStops(a: seq<CigarOp>, op: CigarOp, b: seq<CigarOp>, cursor: int)
    requires MatchesAndDeletions(a) && op.kind != 'M' && op.kind != 'D'
    ensures Walk(a + [op] + b, cursor) == Walk(a, cursor)
  {
    assert a + [op] + b == a + ([op] + b);
    WalkAppend(a, [op] + b, cursor);
    assert Walk([op] + b, cursor + RefLength(a)) == [];
  }

  /** The loop over `GetCigar()`, with its `continue`s and `break`. */
  method WalkCigar(cigar: seq<CigarOp>, start: int) returns (es: seq<Event>)
    ensures es == Walk(cigar, start)
  {
    es := [];
    var cursor := start;
    var i := 0;
    while i < |cigar|
      invariant 0 <= i <= |cigar|
      invariant es + Walk(cigar[i..], cursor) == Walk(cigar, start)
    {
      var op := cigar[i];
      assert cigar[i..][1..] == cigar[i + 1..];
      if op.kind == 'M' {
        cursor := cursor + op.len;
      } else if op.kind == 'D' {
        es := es + [Event(cursor, op.len)];
        cursor := cursor + op.len;
      } else {
        assert es + [] == es;
        return;
      }
      i := i + 1;
    }
    assert es + [] == es;
  }

  /** The deletions one record contributes. */
  function RecordEvents(r: Record): seq<Event> {
    if Skipped(r) then [] else Walk(r.cigar, r.pos)
  }

  /** The deletions of one file, in stream order. */
  function StreamEvents(s: seq<Record>): seq<Event> {
    FlatMap(RecordEvents, s)
  }

  /** The deletions of a file cut in two are those of the first part followed by those of
      the second: each record contributes its own deletions, independently of the others. */
  lemma StreamEventsAppend(a: seq<Record>, b: seq<Record>)
    ensures StreamEvents(a + b) == StreamEvents(a) + StreamEvents(b)
  {
    FlatMapAppend(RecordEvents, a, b);
  }

  /** The deletions of all files, file after file. */
  function AllEvents(files: seq<seq<Record>>): seq<Event> {
    FlatMap(StreamEvents, files)
  }

  /** Counting several files is counting each file in turn: the deletions of a longer list
      of files are those of its first part followed by those of the rest. */
  lemma AllEventsAppend(a: seq<seq<Record>>, b: seq<seq<Record>>)
    ensures AllEvents(a + b) == AllEvents(a) + AllEvents(b)
  {
    FlatMapAppend(StreamEvents, a, b);
  }

  /** The nested map `sv_map[pos][len]` after one more deletion. */
  function Bump(m: map<int, map<int, nat>>, e: Event): map<int, map<int, nat>> {
    var inner := if e.pos in m then m[e.pos] else map[];
    m[e.pos := inner[e.len := if e.len in inner then inner[e.len] + 1 else 1]]
  }

  /** `sv_map` after the deletions `es`, one increment per deletion. */
  function Count(es: seq<Event>): (m: map<int, map<int, nat>>)
    ensures |es| == 0 <==> m == map[]
    ensures forall p, l :: p in m && l in m[p] ==> m[p][l] >= 1
    decreases |es|
  {
    if |es| == 0 then map[] else Bump(Count(es[..|es| - 1]), es[|es| - 1])
  }

  /** The counts hold an entry for exactly the pairs that occur, and each entry is the number
      of occurrences of its pair. */
  lemma {:induction false} CountMeaning(es: seq<Event>)
    ensures forall p, l :: p in Count(es) && l in Count(es)[p] <==> Event(p, l) in es
    ensures forall p, l :: p in Count(es) && l in Count(es)[p] ==> Count(es)[p][l] == multiset(es)[Event(p, l)]
    decreases |es|
  {
    if |es| > 0 {
      var n := |es| - 1;
      CountMeaning(es[..n]);
      assert es == es[..n] + [es[n]];
      assert multiset(es) == multiset(es[..n]) + multiset{es[n]};
    }
  }

  lemma CountSnoc(es: seq<Event>, e: Event)
    ensures Count(es + [e]) == Bump(Count(es), e)
  {
    assert (es + [e])[..|es|] == es;
  }

  /** Adds the deletions `es` to the counts `m` of the deletions `prev`. */
  method AddEvents(m: map<int, map<int, nat>>, ghost prev: seq<Event>, es: seq<Event>)
    returns (m': map<int, map<int, nat>>)
    requires m == Count(prev)
    ensures m' == Count(prev + es)
  {
    m' := m;
    var i := 0;
    assert prev + es[..0] == prev;
    while i < |es|
      invariant 0 <= i <= |es|
      invariant m' == Count(prev + es[..i])
    {
      CountSnoc(prev + es[..i], es[i]);
      assert prev + es[..i] + [es[i]] == prev + es[..i + 1];
      m' := Bump(m', es[i]);
      i := i + 1;
    }
    assert es[..i] == es;
  }

  /** The lines of `out.txt`: position, length and count of every pair counted more than five
      times. */
  function Report(m: map<int, map<int, nat>>): (lines: set<(int, int, nat)>)
    ensures forall t :: t in lines ==> t.2 > 5 && t.0 in m && t.1 in m[t.0] && m[t.0][t.1] == t.2
    ensures forall t, u :: t in lines && u in lines && t.0 == u.0 && t.1 == u.1 ==> t == u
  {
    set p, l | p in m && l in m[p] && m[p][l] > 5 :: (p, l, m[p][l])
  }

  /** The deletions of the first `i + 1` records: those of the first `i`, then the next
      record's own. */
  lemma StreamEventsStep(s: seq<Record>, i: int)
    requires 0 <= i < |s|
    ensures StreamEvents(s[..i + 1]) == StreamEvents(s[..i]) + RecordEvents(s[i])
  {
    assert s[..i + 1] == s[..i] + [s[i]];
    StreamEventsAppend(s[..i], [s[i]]);
    FlatMapSingle(RecordEvents, s[i]);
  }

  /** The record loop of one file: adds its deletions to the counts `m` of the deletions
      `prev` of the files before it. */
  method CountFile(m: map<int, map<int, nat>>, ghost prev: seq<Event>, s: seq<Record>)
    returns (m': map<int, map<int, nat>>)
    requires m == Count(prev)
    ensures m' == Count(prev + StreamEvents(s))
  {
    m' := m;
    var i := 0;
    assert prev + StreamEvents(s[..0]) == prev;
    while i < |s|
      invariant 0 <= i <= |s|
      invariant m' == Count(prev + StreamEvents(s[..i]))
    {
      m' := CountRecord(m', prev, s, i);
      i := i + 1;
    }
    assert s[..i] == s;
  }

  /** One iteration of the record loop: a skipped record leaves the counts alone, any other
      adds the deletions of its cigar walk. */
  method CountRecord(m: map<int, map<int, nat>>, ghost prev: seq<Event>, s: seq<Record>, i: int)
    returns (m': map<int, map<int, nat>>)
    requires 0 <= i < |s|
    requires m == Count(prev + StreamEvents(s[..i]))
    ensures m' == Count(prev + StreamEvents(s[..i + 1]))
  {
    var r := s[i];
    var es := [];
    if !Skipped(r) {
      es := WalkCigar(r.cigar, r.pos);
    }
    StreamEventsStep(s, i);
    assert prev + StreamEvents(s[..i + 1]) == (prev + StreamEvents(s[..i])) + es;
    m' := AddEvents(m, prev + StreamEvents(s[..i]), es);
  }

  /** `runFindSV`: deletions counted over all files, then filtered by the threshold. */
  method RunFindSv(files: seq<seq<Record>>) returns (m: map<int, map<int, nat>>, report: set<(int, int, nat)>)
    ensures m == Count(AllEvents(files))
    ensures report == Report(m)
  {
    m := map[];
    var f := 0;
    while f < |files|
      invariant 0 <= f <= |files|
      invariant m == Count(AllEvents(files[..f]))
    {
      assert files[..f + 1] == files[..f] + [files[f]];
      AllEventsAppend(files[..f], [files[f]]);
      FlatMapSingle(StreamEvents, files[f]);
      m := CountFile(m, AllEvents(files[..f]), files[f]);
      f := f + 1;
    }
    assert files[..f] == files;
    report := Report(m);
  }

  /** A (position, length, count) triple is reported exactly when the pair occurs `count` times
      among the deletions of all files and that is more than five. */
  lemma ReportedExactly(files: seq<seq<Record>>, p: int, l: int, c: nat)
    ensures (p, l, c) in Report(Count(AllEvents(files))) <==>
            c == multiset(AllEvents(files))[Event(p, l)] && c > 5
  {
    var es := AllEvents(files);
    var m := Count(es);
    CountMeaning(es);
    if c == multiset(es)[Event(p, l)] && c > 5 {
      assert Event(p, l) in es;
      assert p in m && l in m[p];
    }
  }
}
