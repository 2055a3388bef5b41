/** Text helpers: whitespace tokens as read by `operator>>`, newline-terminated lines,
    the byte-wise ordering of `std::set<std::string>`, and the `find` / `rfind` searches. */
module Strings {
  import opened Seqs

  // ---------------------------------------------------------------------------
  // Whitespace tokens
  // ---------------------------------------------------------------------------

  /** The characters `isspace` accepts in the C locale. */
  predicate IsSpace(c: char) {
    c == ' ' || c == '\t' || c == '\n' || c == '\r' || c == '\U{B}' || c == '\U{C}'
  }

  /** A whitespace-delimited token: non-empty and free of whitespace. */
  predicate IsWord(w: string) {
    |w| > 0 && forall k :: 0 <= k < |w| ==> !IsSpace(w[k])
  }

  /** The index of the first whitespace character at or after `i`, or `|t|` if none. */
  function WordEnd(t: string, i: nat): (j: nat)
    requires i <= |t|
    ensures i <= j <= |t|
    ensures forall k :: i <= k < j ==> !IsSpace(t[k])
    ensures j == |t| || IsSpace(t[j])
    decreases |t| - i
  {
    if i == |t| || IsSpace(t[i]) then i else WordEnd(t, i + 1)
  }

  /** The tokens `in >> word` extracts from `t`, one after another, until end of input. */
  function Tokens(t: string): (ws: seq<string>)
    ensures forall k :: 0 <= k < |ws| ==> IsWord(ws[k])
    ensures |ws| == 0 <==> AllSpace(t)
    decreases |t|
  {
    if |t| == 0 then []
    else if IsSpace(t[0]) then
      assert forall k :: 0 < k < |t| ==> t[k] == t[1..][k - 1];
      Tokens(t[1..])
    else
      var j := WordEnd(t, 0);
      [t[..j]] + Tokens(t[j..])
  }

  /** Text made of whitespace only (possibly empty). */
  predicate AllSpace(g: string) {
    forall k :: 0 <= k < |g| ==> IsSpace(g[k])
  }

  /** The words `ws` laid out with the gaps `gaps` around and between them:
      gaps[0] ws[0] gaps[1] ws[1] ... ws[n-1] gaps[n]. */
  function Interleave(ws: seq<string>, gaps: seq<string>): string
    requires |gaps| == |ws| + 1
    decreases |ws|
  {
    if |ws| == 0 then gaps[0] else gaps[0] + ws[0] + Interleave(ws[1..], gaps[1..])
  }

  /** `gaps` can separate the words `ws`: every gap is whitespace, the gaps between two words
      are non-empty, and the leading and trailing gaps may be empty. */
  predicate Separates(ws: seq<string>, gaps: seq<string>) {
    && |gaps| == |ws| + 1
    && (forall k :: 0 <= k < |gaps| ==> AllSpace(gaps[k]))
    && (forall k :: 0 < k < |ws| ==> |gaps[k]| > 0)
  }

  /** Each line followed by a newline, as written by `out << line << "\n"`. */
  function Unlines(ls: seq<string>): string
    decreases |ls|
  {
    if |ls| == 0 then "" else ls[0] + "\n" + Unlines(ls[1..])
  }

  /** A word followed by whitespace or by nothing is read back exactly. */
  lemma WordEndAfterWord(w: string, rest: string, i: nat)
    requires IsWord(w) && i <= |w|
    requires |rest| == 0 || IsSpace(rest[0])
    ensures WordEnd(w + rest, i) == |w|
    decreases |w| - i
  {
    var t := w + rest;
    assert |rest| > 0 ==> t[|w|] == rest[0];
    if i < |w| {
      assert t[i] == w[i];
      WordEndAfterWord(w, rest, i + 1);
    }
  }

  /** Reading whitespace-separated tokens back from a one-per-line listing returns the listing. */
  lemma {:induction false} TokensOfUnlines(ls: seq<string>)
    requires forall k :: 0 <= k < |ls| ==> IsWord(ls[k])
    ensures Tokens(Unlines(ls)) == ls
    decreases |ls|
  {
    if |ls| > 0 {
      var w := ls[0];
      var rest := Unlines(ls[1..]);
      var t := w + "\n" + rest;
      assert Unlines(ls) == t;
      assert t == w + ("\n" + rest);
      assert t[0] == w[0];
      WordEndAfterWord(w, "\n" + rest, 0);
      assert t[..|w|] == w;
      assert t[|w|..] == "\n" + rest;
      assert ("\n" + rest)[1..] == rest;
      TokensOfUnlines(ls[1..]);
      assert ls == [w] + ls[1..];
    }
  }

  /** Leading whitespace is skipped. */
  lemma {:induction false} TokensAfterSpaces(g: string, t: string)
    requires AllSpace(g)
    ensures Tokens(g + t) == Tokens(t)
    decreases |g|
  {
    if |g| == 0 {
      assert g + t == t;
    } else {
      assert (g + t)[0] == g[0];
      assert (g + t)[1..] == g[1..] + t;
      TokensAfterSpaces(g[1..], t);
    }
  }

  /** A word followed by whitespace or by the end of input is the next token. */
  lemma WordThenRest(w: string, rest: string)
    requires IsWord(w) && (|rest| == 0 || IsSpace(rest[0]))
    ensures Tokens(w + rest) == [w] + Tokens(rest)
  {
    var t := w + rest;
    assert t[0] == w[0];
    WordEndAfterWord(w, rest, 0);
    assert t[..|w|] == w;
    assert t[|w|..] == rest;
  }

  /** Words laid out with any whitespace around and between them (spaces, tabs, CR, LF, ...)
      are read back as exactly those words. */
  lemma {:induction false} TokensOfLayout(ws: seq<string>, gaps: seq<string>)
    requires forall k :: 0 <= k < |ws| ==> IsWord(ws[k])
    requires Separates(ws, gaps)
    ensures Tokens(Interleave(ws, gaps)) == ws
    decreases |ws|
  {
    if |ws| == 0 {
      TokensAfterSpaces(gaps[0], "");
      assert gaps[0] + "" == gaps[0];
    } else {
      var rest := Interleave(ws[1..], gaps[1..]);
      assert forall k :: 0 < k < |ws| - 1 ==> gaps[1..][k] == gaps[k + 1];
      TokensOfLayout(ws[1..], gaps[1..]);
      if |ws| > 1 {
        assert rest == gaps[1] + ws[1] + Interleave(ws[2..], gaps[2..]);
        assert rest[0] == gaps[1][0];
      }
      WordThenRest(ws[0], rest);
      assert Interleave(ws, gaps) == gaps[0] + (ws[0] + rest);
      TokensAfterSpaces(gaps[0], ws[0] + rest);
      assert ws == [ws[0]] + ws[1..];
    }
  }

  /** The whitespace around and between the tokens of `t`: every text is the layout of its
      own tokens. */
  function Gaps(t: string): (gaps: seq<string>)
    ensures Separates(Tokens(t), gaps)
    ensures Interleave(Tokens(t), gaps) == t
    ensures |t| > 0 && IsSpace(t[0]) ==> |gaps[0]| > 0
    decreases |t|
  {
    if |t| == 0 then [""]
    else if IsSpace(t[0]) then
      var g := Gaps(t[1..]);
      LayoutSpace(t[0], Tokens(t[1..]), g);
      assert t == [t[0]] + t[1..];
      [[t[0]] + g[0]] + g[1..]
    else
      var j := WordEnd(t, 0);
      var g := Gaps(t[j..]);
      LayoutWord(t[..j], Tokens(t[j..]), g);
      assert t == t[..j] + t[j..];
      [""] + g
  }

  /** One more whitespace character in front joins the leading gap. */
  lemma LayoutSpace(c: char, ws: seq<string>, g: seq<string>)
    requires IsSpace(c) && Separates(ws, g)
    ensures Separates(ws, [[c] + g[0]] + g[1..])
    ensures Interleave(ws, [[c] + g[0]] + g[1..]) == [c] + Interleave(ws, g)
  {
    var gaps := [[c] + g[0]] + g[1..];
    assert forall k :: 0 < k < |gaps| ==> gaps[k] == g[k];
    if |ws| > 0 {
      assert gaps[1..] == g[1..];
    }
  }

  /** A word in front comes after an empty leading gap; the old leading gap now separates it
      from the next word, so it must not be empty when there is one. */
  lemma LayoutWord(w: string, ws: seq<string>, g: seq<string>)
    requires Separates(ws, g) && (|ws| > 0 ==> |g[0]| > 0)
    ensures Separates([w] + ws, [""] + g)
    ensures Interleave([w] + ws, [""] + g) == w + Interleave(ws, g)
  {
    var gaps := [""] + g;
    var vs := [w] + ws;
    assert vs[1..] == ws && gaps[1..] == g;
    assert Interleave(vs, gaps) == gaps[0] + vs[0] + Interleave(ws, g);
    forall k | 0 <= k < |gaps|
      ensures AllSpace(gaps[k])
    {
      if k > 0 {
        assert gaps[k] == g[k - 1];
      }
    }
    forall k | 0 < k < |vs|
      ensures |gaps[k]| > 0
    {
      assert gaps[k] == g[k - 1];
    }
  }

  /** Tokenising is determined by the layout: `Tokens(t) == ws` exactly when `t` is `ws`
      laid out with whitespace gaps. */
  lemma TokensExactly(t: string, ws: seq<string>)
    requires forall k :: 0 <= k < |ws| ==> IsWord(ws[k])
    ensures Tokens(t) == ws <==> exists gaps :: Separates(ws, gaps) && Interleave(ws, gaps) == t
  {
    if Tokens(t) == ws {
      var gaps := Gaps(t);
      assert Separates(ws, gaps) && Interleave(ws, gaps) == t;
    }
    if exists gaps :: Separates(ws, gaps) && Interleave(ws, gaps) == t {
      var gaps :| Separates(ws, gaps) && Interleave(ws, gaps) == t;
      TokensOfLayout(ws, gaps);
    }
  }

  // ---------------------------------------------------------------------------
  // Lines
  // ---------------------------------------------------------------------------

  /** The index of the first newline at or after `i`, or `|t|` if none. */
  function LineEnd(t: string, i: nat): (j: nat)
    requires i <= |t|
    ensures i <= j <= |t|
    ensures forall k :: i <= k < j ==> t[k] != '\n'
    ensures j == |t| || t[j] == '\n'
    decreases |t| - i
  {
    if i == |t| || t[i] == '\n' then i else LineEnd(t, i + 1)
  }

  /** The lines of a text; a final fragment without a newline is a line of its own. */
  function Lines(t: string): (ls: seq<string>)
    ensures forall k :: 0 <= k < |ls| ==> '\n' !in ls[k]
    decreases |t|
  {
    if |t| == 0 then []
    else
      var j := LineEnd(t, 0);
      [t[..j]] + (if j == |t| then [] else Lines(t[j + 1..]))
  }

  lemma LineEndAfterLine(l: string, rest: string, i: nat)
    requires '\n' !in l && i <= |l|
    ensures LineEnd(l + "\n" + rest, i) == |l|
    decreases |l| - i
  {
    var t := l + "\n" + rest;
    assert t[|l|] == '\n';
    if i < |l| {
      assert t[i] == l[i];
      LineEndAfterLine(l, rest, i + 1);
    }
  }

  /** Splitting newline-terminated output into lines recovers the lines written. */
  lemma {:induction false} LinesOfUnlines(ls: seq<string>)
    requires forall k :: 0 <= k < |ls| ==> '\n' !in ls[k]
    ensures Lines(Unlines(ls)) == ls
    decreases |ls|
  {
    if |ls| > 0 {
      var l := ls[0];
      var rest := Unlines(ls[1..]);
      var t := l + "\n" + rest;
      assert Unlines(ls) == t;
      LineEndAfterLine(l, rest, 0);
      assert t[..|l|] == l;
      assert t[|l| + 1..] == rest;
      LinesOfUnlines(ls[1..]);
      assert ls == [l] + ls[1..];
    }
  }

  // ---------------------------------------------------------------------------
  // Byte-wise lexicographic order (std::string operator<)
  // ---------------------------------------------------------------------------

  /** `a` sorts strictly before `b`: first differing character decides, a proper prefix comes first. */
  predicate LexLess(a: string, b: string)
    decreases |a|
  {
    if |a| == 0 then |b| > 0
    else if |b| == 0 then false
    else a[0] < b[0] || (a[0] == b[0] && LexLess(a[1..], b[1..]))
  }

  lemma {:induction false} LexIrreflexive(a: string)
    ensures !LexLess(a, a)
    decreases |a|
  {
    if |a| > 0 {
      LexIrreflexive(a[1..]);
    }
  }

  lemma {:induction false} LexTransitive(a: string, b: string, c: string)
    requires LexLess(a, b) && LexLess(b, c)
    ensures LexLess(a, c)
    decreases |a|
  {
    if |a| > 0 && a[0] == b[0] && b[0] == c[0] {
      LexTransitive(a[1..], b[1..], c[1..]);
    }
  }

  lemma {:induction false} LexTotal(a: string, b: string)
    ensures a == b || LexLess(a, b) || LexLess(b, a)
    decreases |a|
  {
    if |a| > 0 && |b| > 0 && a[0] == b[0] {
      LexTotal(a[1..], b[1..]);
      if a[1..] == b[1..] {
        assert a == [a[0]] + a[1..] && b == [b[0]] + b[1..];
      }
    }
  }

  /** Strictly ascending, hence duplicate-free. */
  predicate StrictlySorted(s: seq<string>) {
    forall i, j :: 0 <= i < j < |s| ==> LexLess(s[i], s[j])
  }

  lemma StrictlySortedDistinct(s: seq<string>)
    requires StrictlySorted(s)
    ensures Distinct(s)
  {
    forall i, j | 0 <= i < j < |s|
      ensures s[i] != s[j]
    {
      LexIrreflexive(s[i]);
    }
  }

  /** Inserts `x` into an ascending list, keeping it ascending and without duplicates. */
  function InsertSorted(x: string, s: seq<string>): (r: seq<string>)
    requires StrictlySorted(s)
    ensures StrictlySorted(r)
    ensures Elements(r) == Elements(s) + {x}
    decreases |s|
  {
    if |s| == 0 then [x]
    else if x == s[0] then s
    else if LexLess(x, s[0]) then
      assert forall k :: 1 <= k < |s| ==> LexLess(x, s[k]) by {
        forall k | 1 <= k < |s| ensures LexLess(x, s[k]) {
          LexTransitive(x, s[0], s[k]);
        }
      }
      [x] + s
    else
      LexTotal(x, s[0]);
      var tail := InsertSorted(x, s[1..]);
      assert forall y :: y in tail ==> LexLess(s[0], y) by {
        forall y | y in tail ensures LexLess(s[0], y) {
          assert y in Elements(tail);
        }
      }
      assert Elements(s) == {s[0]} + Elements(s[1..]) by {
        assert s == [s[0]] + s[1..];
      }
      assert Elements([s[0]] + tail) == {s[0]} + Elements(tail);
      [s[0]] + tail
  }

  /** A set has one ascending listing: two strictly sorted lists of the same elements are equal. */
  lemma {:induction false} SortedUnique(a: seq<string>, b: seq<string>)
    requires StrictlySorted(a) && StrictlySorted(b) && Elements(a) == Elements(b)
    ensures a == b
    decreases |a|
  {
    StrictlySortedDistinct(a);
    StrictlySortedDistinct(b);
    DistinctCard(a);
    DistinctCard(b);
    if |a| > 0 {
      assert a[0] in Elements(b);
      assert b[0] in Elements(a);
      if a[0] != b[0] {
        var j :| 0 <= j < |b| && b[j] == a[0];
        var k :| 0 <= k < |a| && a[k] == b[0];
        assert LexLess(b[0], a[0]);
        assert LexLess(a[0], b[0]);
        LexTransitive(a[0], b[0], a[0]);
        LexIrreflexive(a[0]);
      }
      assert a == [a[0]] + a[1..] && b == [b[0]] + b[1..];
      assert Elements(a[1..]) == Elements(a) - {a[0]};
      assert Elements(b[1..]) == Elements(b) - {b[0]};
      SortedUnique(a[1..], b[1..]);
    }
  }

  // ---------------------------------------------------------------------------
  // Searching
  // ---------------------------------------------------------------------------

  /** `p` occurs in `t` starting at index `i`. */
  predicate OccursAt(t: string, p: string, i: int) {
    0 <= i && i + |p| <= |t| && t[i..i + |p|] == p
  }

  /** `t.find(p, i)`: the first occurrence of `p` at or after `i`, or -1 for `npos`. */
  function FindFrom(t: string, p: string, i: nat): (k: int)
    requires i <= |t|
    ensures k == -1 || (i <= k && OccursAt(t, p, k))
    ensures forall m :: i <= m && (k == -1 || m < k) ==> !OccursAt(t, p, m)
    decreases |t| - i
  {
    if i + |p| > |t| then -1
    else if t[i..i + |p|] == p then i
    else FindFrom(t, p, i + 1)
  }

  /** `t.rfind(c)`: the last index holding `c`, or -1 for `npos`. */
  function LastIndexOf(t: string, c: char): (k: int)
    ensures -1 <= k < |t|
    ensures k >= 0 ==> t[k] == c
    ensures forall m :: k < m < |t| ==> t[m] != c
    decreases |t|
  {
    if |t| == 0 then -1
    else if t[|t| - 1] == c then |t| - 1
    else LastIndexOf(t[..|t| - 1], c)
  }
}
