/** `bxtools amfilter`: a first pass keeps, per barcode, a window of nearby alignments and
    collects the query names to discard; a second pass replays the stream without them. */
module AmFilter {
  import opened Wrappers
  import opened Seqs
  import opened Records

  /** Alignments of one barcode at least this far apart do not belong to one molecule. */
  const DistanceDiff: int := 15000

  /** The stack of one barcode. A lone entry is `Singleton`; a stack of two or more entries
      is `Cluster`, of which only the most recent position is ever consulted. */
  datatype Window = Singleton(id: string, pos: int) | Cluster(ids: seq<string>, lastPos: int)

  /** The number of entries on the stack. */
  function Size(w: Window): nat {
    match w
    case Singleton(_, _) => 1
    case Cluster(ids, _) => |ids|
  }

  /** The position on top of the stack: that of the most recent entry. */
  function Top(w: Window): int {
    match w
    case Singleton(_, p) => p
    case Cluster(_, p) => p
  }

  /** A cluster holds at least two entries. */
  predicate WindowOk(w: Window) {
    w.Cluster? ==> |w.ids| >= 2
  }

  /** The state of the first pass: the window of every barcode seen, and the discard set. */
  datatype Pass = Pass(windows: map<string, Window>, discard: set<string>)

  function Abs(x: int): nat {
    if x < 0 then -x else x
  }

  /** Two positions are close enough to extend a window; the bound is strict. */
  predicate Near(a: int, b: int) {
    Abs(a - b) < DistanceDiff
  }

  /** A record whose AM tag reads "0" is discarded outright. */
  predicate Invalid(r: Record) {
    r.am == "0"
  }

  /** The effect of one valid record on its barcode's window. */
  datatype Move = Move(window: Window, dropped: Option<string>)

  /** Pushes (`id`, `pos`) onto the window `w` (None when the barcode has no stack yet):
      a near record grows the stack, a far one replaces it by a fresh one-entry stack,
      and only a replaced lone entry is reported for discarding. */
  function Advance(w: Option<Window>, id: string, pos: int): (m: Move)
    requires w.Some? ==> WindowOk(w.value)
    ensures WindowOk(m.window)
    ensures Top(m.window) == pos
    ensures Size(m.window) == if w.Some? && Near(pos, Top(w.value)) then Size(w.value) + 1 else 1
    ensures m.window.Singleton? ==> m.window.id == id
    ensures m.dropped.Some? <==> w.Some? && w.value.Singleton? && !Near(pos, w.value.pos)
    ensures m.dropped.Some? ==> m.dropped.value == w.value.id
  {
    match w
    case None => Move(Singleton(id, pos), None)
    case Some(Singleton(top, p)) =>
      if Near(pos, p) then Move(Cluster([top, id], pos), None)
      else Move(Singleton(id, pos), Some(top))
    case Some(Cluster(ids, p)) =>
      if Near(pos, p) then Move(Cluster(ids + [id], pos), None)
      else Move(Singleton(id, pos), None)
  }

  function OptionSet(o: Option<string>): set<string> {
    match o
    case None => {}
    case Some(x) => {x}
  }

  /** The window of barcode `b`, None when it has no stack yet. */
  function WindowOf(st: Pass, b: string): Option<Window> {
    if b in st.windows then Some(st.windows[b]) else None
  }

  /** One iteration of the first-pass loop. */
  function Step(st: Pass, r: Record): (st': Pass)
    requires forall b :: b in st.windows ==> WindowOk(st.windows[b])
    ensures forall b :: b in st'.windows ==> WindowOk(st'.windows[b])
    ensures st.discard <= st'.discard
    ensures Invalid(r) ==> st'.windows == st.windows && st'.discard == st.discard + {r.qname}
    ensures !Invalid(r) ==>
      && st'.windows.Keys == st.windows.Keys + {BxText(r)}
      && (forall b :: b in st.windows && b != BxText(r) ==> st'.windows[b] == st.windows[b])
      && var m := Advance(WindowOf(st, BxText(r)), r.qname, r.pos);
         st'.windows[BxText(r)] == m.window && st'.discard == st.discard + OptionSet(m.dropped)
  {
    if Invalid(r) then Pass(st.windows, st.discard + {r.qname})
    else
      var b := BxText(r);
      var m := Advance(WindowOf(st, b), r.qname, r.pos);
      Pass(st.windows[b := m.window], st.discard + OptionSet(m.dropped))
  }

  /** The query names of a stream. */
  function Qnames(s: seq<Record>): set<string> {
    set r | r in s :: r.qname
  }

  /** The barcodes of the records that reach the window logic. */
  function ValidBarcodes(s: seq<Record>): set<string> {
    set r | r in s && !Invalid(r) :: BxText(r)
  }

  /** The first pass over the stream, before the end-of-stream cleanup. */
  function Scan(s: seq<Record>): (st: Pass)
    ensures forall b :: b in st.windows ==> WindowOk(st.windows[b])
    decreases |s|
  {
    if |s| == 0 then Pass(map[], {})
    else Step(Scan(s[..|s| - 1]), s[|s| - 1])
  }

  /** After the pass, exactly the barcodes of valid records have a stack. */
  lemma {:induction false} ScanKeys(s: seq<Record>)
    ensures Scan(s).windows.Keys == ValidBarcodes(s)
    decreases |s|
  {
    if |s| > 0 {
      var prev := s[..|s| - 1];
      var r := s[|s| - 1];
      assert s == prev + [r];
      assert ValidBarcodes(s) == ValidBarcodes(prev) + (if Invalid(r) then {} else {BxText(r)});
      ScanKeys(prev);
    }
  }

  /** Every discarded name and every lone stack entry is a query name of the stream. */
  lemma {:induction false} ScanNames(s: seq<Record>)
    ensures Scan(s).discard <= Qnames(s)
    ensures forall b :: b in Scan(s).windows && Scan(s).windows[b].Singleton? ==> Scan(s).windows[b].id in Qnames(s)
    decreases |s|
  {
    if |s| > 0 {
      var prev := s[..|s| - 1];
      var r := s[|s| - 1];
      assert s == prev + [r];
      assert Qnames(s) == Qnames(prev) + {r.qname};
      ScanNames(prev);
    }
  }

  /** Barcodes whose stack holds a single entry at end of stream. */
  function SingletonBarcodes(w: map<string, Window>): set<string> {
    set b | b in w && w[b].Singleton?
  }

  /** The end-of-stream cleanup as written: for every one-entry stack it inserts the
      BARCODE (the map key) into the discard set, not the read id on the stack. */
  function FinishAsWritten(st: Pass): (d: set<string>)
    ensures st.discard <= d
    ensures forall b :: b in st.windows && st.windows[b].Singleton? ==> b in d
    ensures forall x :: x in d && x !in st.discard ==> x in st.windows && st.windows[x].Singleton?
  {
    st.discard + SingletonBarcodes(st.windows)
  }

  /** The cleanup as evidently intended: the read id of every one-entry stack is discarded. */
  function FinishIntended(st: Pass): (d: set<string>)
    ensures st.discard <= d
    ensures forall b :: b in st.windows && st.windows[b].Singleton? ==> st.windows[b].id in d
    ensures forall x :: x in d && x !in st.discard ==>
      exists b :: b in st.windows && st.windows[b].Singleton? && st.windows[b].id == x
  {
    st.discard + set b | b in st.windows && st.windows[b].Singleton? :: st.windows[b].id
  }

  /** The second pass: every record whose query name is not discarded, in stream order. */
  function Replay(s: seq<Record>, d: set<string>): seq<Record> {
    Filter((r: Record) => r.qname !in d, s)
  }

  /** The replay writes exactly the records of the stream whose name is not discarded. */
  lemma ReplayMembers(s: seq<Record>, d: set<string>)
    ensures forall r :: r in Replay(s, d) <==> r in s && r.qname !in d
  {
  }

  /** Replaying a concatenation replays each part: the second pass keeps stream order. */
  lemma ReplayConcat(a: seq<Record>, b: seq<Record>, d: set<string>)
    ensures Replay(a + b, d) == Replay(a, d) + Replay(b, d)
  {
    FilterConcat((r: Record) => r.qname !in d, a, b);
  }

  lemma ReplaySingle(r: Record, d: set<string>)
    ensures Replay([r], d) == if r.qname in d then [] else [r]
  {
    FilterSingle((x: Record) => x.qname !in d, r);
  }

  /** Every record with AM tag "0" has its query name discarded by the first pass. */
  lemma {:induction false} ScanDiscardsInvalid(s: seq<Record>)
    ensures forall x :: x in s && Invalid(x) ==> x.qname in Scan(s).discard
    decreases |s|
  {
    if |s| > 0 {
      var prev := s[..|s| - 1];
      assert s == prev + [s[|s| - 1]];
      ScanDiscardsInvalid(prev);
    }
  }

  /** `bxtools amfilter` as written: the output is drawn from the stream, in order, and a
      read with an AM "0" alignment loses all its alignments. */
  function RunAmFilter(s: seq<Record>): (o: seq<Record>)
    ensures |o| <= |s|
    ensures forall r :: r in o ==> r in s && forall x :: x in s && x.qname == r.qname ==> !Invalid(x)
  {
    var d := FinishAsWritten(Scan(s));
    ScanDiscardsInvalid(s);
    ReplayMembers(s, d);
    Replay(s, d)
  }

  /** `bxtools amfilter` with the cleanup discarding read ids. */
  function RunAmFilterIntended(s: seq<Record>): seq<Record> {
    Replay(s, FinishIntended(Scan(s)))
  }

  // ---------------------------------------------------------------------------
  // Properties of the first pass
  // ---------------------------------------------------------------------------

  /** Record `j` is the first valid record after `i` that carries the barcode of record `i`. */
  predicate NextSameBarcode(s: seq<Record>, i: int, j: int) {
    && 0 <= i < j < |s|
    && !Invalid(s[j]) && BxText(s[j]) == BxText(s[i])
    && forall k :: i < k < j ==> Invalid(s[k]) || BxText(s[k]) != BxText(s[i])
  }

  /** Valid record `i` is followed, next within its barcode, by a record `j` too far away. */
  predicate BrokenBy(s: seq<Record>, i: int, j: int) {
    NextSameBarcode(s, i, j) && !Invalid(s[i]) && !Near(s[j].pos, s[i].pos)
  }

  /** Record `k` (a valid record of barcode `b`) is the last valid record of `b` in `s`. */
  predicate LastOfBarcode(s: seq<Record>, b: string, k: int) {
    && 0 <= k < |s| && !Invalid(s[k]) && BxText(s[k]) == b
    && forall m :: k < m < |s| ==> Invalid(s[m]) || BxText(s[m]) != b
  }

  /** A one-entry stack at the end of the pass holds the last valid record of its barcode. */
  lemma {:induction false} SingletonIsLastOfBarcode(s: seq<Record>, b: string)
    requires b in Scan(s).windows && Scan(s).windows[b].Singleton?
    ensures exists k :: LastOfBarcode(s, b, k)
                     && s[k].qname == Scan(s).windows[b].id && s[k].pos == Scan(s).windows[b].pos
    decreases |s|
  {
    var prev := s[..|s| - 1];
    var r := s[|s| - 1];
    assert s == prev + [r];
    var st := Scan(prev);
    assert Scan(s) == Step(st, r);
    var w := Scan(s).windows[b];
    if Invalid(r) || BxText(r) != b {
      assert b in st.windows && st.windows[b] == w;
      SingletonIsLastOfBarcode(prev, b);
      var k :| LastOfBarcode(prev, b, k) && prev[k].qname == w.id && prev[k].pos == w.pos;
      assert s[k] == prev[k];
      assert LastOfBarcode(s, b, k);
    } else {
      var m := Advance(WindowOf(st, b), r.qname, r.pos);
      assert w == m.window;
      assert w.id == r.qname && w.pos == Top(w) == r.pos;
      assert LastOfBarcode(s, b, |s| - 1);
    }
  }

  /** Every name in the discard set belongs to a record whose AM tag is "0", or to a valid
      record that sat alone on its stack until the next record of its barcode came too far. */
  lemma {:induction false} DiscardOrigin(s: seq<Record>)
    ensures forall x :: x in Scan(s).discard ==>
      exists i :: 0 <= i < |s| && s[i].qname == x && (Invalid(s[i]) || exists j :: BrokenBy(s, i, j))
    decreases |s|
  {
    if |s| > 0 {
      var prev := s[..|s| - 1];
      var r := s[|s| - 1];
      assert s == prev + [r];
      DiscardOrigin(prev);
      var st := Scan(prev);
      forall x | x in Scan(s).discard
        ensures exists i :: 0 <= i < |s| && s[i].qname == x && (Invalid(s[i]) || exists j :: BrokenBy(s, i, j))
      {
        if x in st.discard {
          var i :| 0 <= i < |prev| && prev[i].qname == x && (Invalid(prev[i]) || exists j :: BrokenBy(prev, i, j));
          if !Invalid(prev[i]) {
            var j :| BrokenBy(prev, i, j);
            assert BrokenBy(s, i, j);
          }
        } else if Invalid(r) {
          assert s[|s| - 1].qname == x;
        } else {
          var b := BxText(r);
          var w := st.windows[b];
          assert w.Singleton? && !Near(r.pos, w.pos) && x == w.id;
          SingletonIsLastOfBarcode(prev, b);
          var k :| LastOfBarcode(prev, b, k) && prev[k].qname == w.id && prev[k].pos == w.pos;
          assert BrokenBy(s, k, |s| - 1);
        }
      }
    }
  }

  /** A read all of whose records are valid, and each of which is followed within its
      barcode by a record closer than the threshold (or by none), is never discarded
      during the pass. */
  lemma CloseSuccessorsKeepRead(s: seq<Record>, x: string)
    requires forall i :: 0 <= i < |s| && s[i].qname == x ==>
      !Invalid(s[i]) && forall j :: NextSameBarcode(s, i, j) ==> Near(s[j].pos, s[i].pos)
    ensures x !in Scan(s).discard
  {
    DiscardOrigin(s);
  }

  /** A record whose barcode has no other valid record ends the pass alone on its stack. */
  lemma {:induction false} LoneRecordWindow(s: seq<Record>, i: int)
    requires 0 <= i < |s| && !Invalid(s[i])
    requires forall j :: 0 <= j < |s| && j != i && !Invalid(s[j]) ==> BxText(s[j]) != BxText(s[i])
    ensures BxText(s[i]) in Scan(s).windows
    ensures Scan(s).windows[BxText(s[i])] == Singleton(s[i].qname, s[i].pos)
    decreases |s|
  {
    var prev := s[..|s| - 1];
    var r := s[|s| - 1];
    assert s == prev + [r];
    if i == |s| - 1 {
      ScanKeys(prev);
      assert BxText(r) !in ValidBarcodes(prev);
    } else {
      LoneRecordWindow(prev, i);
    }
  }

  /** As written, the cleanup discards the lone record's BARCODE. */
  lemma LoneRecordBarcodeDiscardedAsWritten(s: seq<Record>, i: int)
    requires 0 <= i < |s| && !Invalid(s[i])
    requires forall j :: 0 <= j < |s| && j != i && !Invalid(s[j]) ==> BxText(s[j]) != BxText(s[i])
    ensures BxText(s[i]) in FinishAsWritten(Scan(s))
  {
    LoneRecordWindow(s, i);
  }

  /** As written, the read of a lone record survives both passes: a stream of one valid record
      whose barcode differs from its query name comes out unchanged. */
  lemma LoneReadSurvivesAsWritten(r: Record)
    requires !Invalid(r) && BxText(r) != r.qname
    ensures RunAmFilter([r]) == [r]
  {
    assert [r][..0] == [];
    assert Scan([r]) == Step(Scan([]), r);
    assert Scan([r]) == Pass(map[BxText(r) := Singleton(r.qname, r.pos)], {});
    OneSingletonBarcode(BxText(r), Singleton(r.qname, r.pos));
    ReplaySingle(r, {BxText(r)});
  }

  /** With the intended cleanup, the read of a lone record is discarded, and no record
      carrying its name survives the replay. */
  lemma LoneReadDiscardedIntended(s: seq<Record>, i: int)
    requires 0 <= i < |s| && !Invalid(s[i])
    requires forall j :: 0 <= j < |s| && j != i && !Invalid(s[j]) ==> BxText(s[j]) != BxText(s[i])
    ensures s[i].qname in FinishIntended(Scan(s))
    ensures forall r :: r in RunAmFilterIntended(s) ==> r.qname != s[i].qname
  {
    LoneRecordWindow(s, i);
    ReplayMembers(s, FinishIntended(Scan(s)));
  }

  /** Two valid records of one barcode exactly the threshold apart are not merged: the first
      one's read is discarded and the second starts a fresh stack; one unit closer, they merge. */
  lemma ThresholdIsStrict(a: Record, b: Record)
    requires !Invalid(a) && !Invalid(b) && BxText(a) == BxText(b)
    ensures Abs(b.pos - a.pos) == 15000 ==>
      Scan([a, b]) == Pass(map[BxText(a) := Singleton(b.qname, b.pos)], {a.qname})
    ensures Abs(b.pos - a.pos) == 14999 ==>
      Scan([a, b]) == Pass(map[BxText(a) := Cluster([a.qname, b.qname], b.pos)], {})
  {
    assert [a, b][..1] == [a] && [a][..0] == [];
    assert Scan([a]) == Step(Scan([]), a);
    assert Scan([a]) == Pass(map[BxText(a) := Singleton(a.qname, a.pos)], {});
    assert Scan([a, b]) == Step(Scan([a]), b);
  }

  /** Four records of barcode "b": reads "qa" at 0 and "qb" at 100 form a cluster, "qc" at
      50000 starts a new stack, and a final record of read "qa" has AM tag "0". */
  predicate RerunShape(a: Record, b: Record, c: Record, e: Record) {
    && a.qname == "qa" && b.qname == "qb" && c.qname == "qc" && e.qname == "qa"
    && BxText(a) == "b" && BxText(b) == "b" && BxText(c) == "b"
    && a.pos == 0 && b.pos == 100 && c.pos == 50000
    && !Invalid(a) && !Invalid(b) && !Invalid(c) && Invalid(e)
  }

  lemma RerunFirstScan(a: Record, b: Record, c: Record, e: Record)
    requires RerunShape(a, b, c, e)
    ensures Scan([a, b, c, e]) == Pass(map["b" := Singleton("qc", 50000)], {"qa"})
  {
    var s := [a, b, c, e];
    assert s[..3] == [a, b, c] && [a, b, c][..2] == [a, b] && [a, b][..1] == [a] && [a][..0] == [];
    assert Scan([a]) == Pass(map["b" := Singleton("qa", 0)], {});
    assert Scan([a, b]) == Pass(map["b" := Cluster(["qa", "qb"], 100)], {});
    assert Scan([a, b, c]) == Pass(map["b" := Singleton("qc", 50000)], {});
  }

  lemma OneSingletonBarcode(b: string, w: Window)
    ensures SingletonBarcodes(map[b := w]) == if w.Singleton? then {b} else {}
  {
  }

  lemma RerunFirstDiscard(a: Record, b: Record, c: Record, e: Record)
    requires RerunShape(a, b, c, e)
    ensures FinishAsWritten(Scan([a, b, c, e])) == {"qa", "b"}
  {
    RerunFirstScan(a, b, c, e);
    OneSingletonBarcode("b", Singleton("qc", 50000));
  }

  lemma RunAmFilterVia(s: seq<Record>, d: set<string>)
    requires FinishAsWritten(Scan(s)) == d
    ensures RunAmFilter(s) == Replay(s, d)
  {
  }

  /** Replaying four records of which the outer two are discarded leaves the inner two. */
  lemma ReplayInner(a: Record, b: Record, c: Record, e: Record, d: set<string>)
    requires a.qname in d && b.qname !in d && c.qname !in d && e.qname in d
    ensures Replay([a, b, c, e], d) == [b, c]
  {
    assert [a, b, c, e][1..] == [b, c, e] && [b, c, e][1..] == [c, e];
    assert [c, e][1..] == [e] && [e][1..] == [];
    assert Replay([e], d) == [];
    assert Replay([c, e], d) == [c];
    assert Replay([b, c, e], d) == [b, c];
  }

  /** The first run drops both records of "qa", one by its AM tag and one by name. */
  lemma RerunFirstOutput(a: Record, b: Record, c: Record, e: Record)
    requires RerunShape(a, b, c, e)
    ensures RunAmFilter([a, b, c, e]) == [b, c]
  {
    RerunFirstDiscard(a, b, c, e);
    RunAmFilterVia([a, b, c, e], {"qa", "b"});
    assert "qb" !in {"qa", "b"} && "qc" !in {"qa", "b"};
    ReplayInner(a, b, c, e, {"qa", "b"});
  }

  /** On the first run's output, "qb" is alone on its stack when "qc" comes too far. */
  lemma RerunSecondOutput(a: Record, b: Record, c: Record, e: Record)
    requires RerunShape(a, b, c, e)
    ensures RunAmFilter([b, c]) == [c]
  {
    assert [b, c][..1] == [b] && [b][..0] == [];
    assert Scan([b]) == Pass(map["b" := Singleton("qb", 100)], {});
    assert Scan([b, c]) == Pass(map["b" := Singleton("qc", 50000)], {"qb"});
    OneSingletonBarcode("b", Singleton("qc", 50000));
    var d := FinishAsWritten(Scan([b, c]));
    assert d == {"qb", "b"};
    assert [b, c] == [b] + [c];
    ReplayConcat([b], [c], d);
    ReplaySingle(b, d);
    ReplaySingle(c, d);
  }

  /** Running the filter on its own output can remove more records: read "qb" loses its
      cluster partner "qa" (dropped by name through an AM "0" record) and is then
      discarded as a lone entry on the second run. */
  lemma RerunRemovesMore(a: Record, b: Record, c: Record, e: Record)
    requires RerunShape(a, b, c, e)
    ensures RunAmFilter(RunAmFilter([a, b, c, e])) != RunAmFilter([a, b, c, e])
  {
    RerunFirstOutput(a, b, c, e);
    RerunSecondOutput(a, b, c, e);
    assert [c] != [b, c];
  }
}
