/** Highlight-marker insertion (insertMatchDecorations in ff/format.go, and
    the older copy in ff/findfile.go): the line is walked character by
    character and the sorted span begins and ends become Begin/End markers. */
module Decorate {
  import opened Util
  import opened Matching
  import opened Format

  // =====================================================================
  // Sorting the marker positions (sort.IntSlice.Sort)

  predicate SortedInts(xs: seq<int>)
  {
    forall i, j :: 0 <= i < j < |xs| ==> xs[i] <= xs[j]
  }

  function Insert(x: int, xs: seq<int>): (r: seq<int>)
    requires SortedInts(xs)
    ensures |r| == |xs| + 1
    ensures forall k :: 0 <= k < |r| ==> r[k] == x || r[k] in xs
    ensures SortedInts(r)
    ensures multiset(r) == multiset(xs) + multiset{x}
  {
    if xs == [] then [x]
    else if x <= xs[0] then
      SortedCons(x, xs);
      [x] + xs
    else
      var rest := Insert(x, xs[1..]);
      assert forall k :: 0 <= k < |rest| ==> xs[0] <= rest[k];
      SortedCons(xs[0], rest);
      assert xs == [xs[0]] + xs[1..];
      [xs[0]] + rest
  }

  lemma SortedCons(a: int, s: seq<int>)
    requires SortedInts(s)
    requires forall k :: 0 <= k < |s| ==> a <= s[k]
    ensures SortedInts([a] + s)
  {
    var r := [a] + s;
    forall i, j | 0 <= i < j < |r|
      ensures r[i] <= r[j]
    {
      if i > 0 {
        assert r[i] == s[i - 1] && r[j] == s[j - 1];
      } else {
        assert r[j] == s[j - 1];
      }
    }
  }

  /** The library sort, as a sorted permutation of its input. */
  function SortInts(xs: seq<int>): (r: seq<int>)
    ensures |r| == |xs|
    ensures SortedInts(r)
    ensures multiset(r) == multiset(xs)
  {
    if xs == [] then []
    else
      assert xs == xs[..|xs| - 1] + [xs[|xs| - 1]];
      Insert(xs[|xs| - 1], SortInts(xs[..|xs| - 1]))
  }

  function Begins(spans: seq<Span>): (r: seq<int>)
    ensures |r| == |spans|
  {
    seq(|spans|, i requires 0 <= i < |spans| => spans[i].beginIndex)
  }

  function Ends(spans: seq<Span>): (r: seq<int>)
    ensures |r| == |spans|
  {
    seq(|spans|, i requires 0 <= i < |spans| => spans[i].endIndex)
  }

  // =====================================================================
  // The marks written for one begin and one end

  /** appendMatchDecorationsBegin: a Begin marker when coloring, then '[' when
      brackets are shown. */
  function BeginMarks(coloring: bool, brackets: bool): (r: seq<Token>)
    ensures |r| == (if coloring then 1 else 0) + (if brackets then 1 else 0)
    ensures coloring ==> r[0] == Begin
    ensures brackets ==> r[|r| - 1] == Char('[' as int)
    ensures End !in r
  {
    (if coloring then [Begin] else []) + (if brackets then [Char('[' as int)] else [])
  }

  /** appendMatchDecorationsEnd: ']' when brackets are shown, then an End
      marker when coloring. */
  function EndMarks(coloring: bool, brackets: bool): (r: seq<Token>)
    ensures |r| == (if coloring then 1 else 0) + (if brackets then 1 else 0)
    ensures brackets ==> r[0] == Char(']' as int)
    ensures coloring ==> r[|r| - 1] == End
    ensures Begin !in r
  {
    (if brackets then [Char(']' as int)] else []) + (if coloring then [End] else [])
  }

  /** `m` written `k` times. */
  function Repeat(m: seq<Token>, k: nat): seq<Token>
  {
    if k == 0 then [] else Repeat(m, k - 1) + m
  }

  lemma RepeatZero(s: seq<Token>, m: seq<Token>)
    ensures s + Repeat(m, 0) == s
  {
    assert s + [] == s;
  }

  lemma RepeatOne(m: seq<Token>)
    ensures Repeat(m, 1) == m
  {
    assert Repeat(m, 1) == [] + m;
  }

  lemma RepeatMore(s: seq<Token>, m: seq<Token>, k: nat)
    ensures s + Repeat(m, k + 1) == s + Repeat(m, k) + m
  {
    assert Repeat(m, k + 1) == Repeat(m, k) + m;
  }

  // =====================================================================
  // The walk

  /** The number of entries from `k` on that equal `p`: the markers the
      "skip duplicate indexes" loops write at one position. */
  function Run(xs: seq<int>, k: nat, p: int): (r: nat)
    requires k <= |xs|
    ensures k + r <= |xs|
    decreases |xs| - k
  {
    if k < |xs| && xs[k] == p then 1 + Run(xs, k + 1, p) else 0
  }

  lemma RunStep(xs: seq<int>, k: nat, p: int)
    requires k < |xs| && xs[k] == p
    ensures Run(xs, k, p) == 1 + Run(xs, k + 1, p)
  {
  }

  /** The settings the decorations depend on. */
  datatype DecorOptions = DecorOptions(needMatchDecorations: bool, needColoring: bool, showBrackets: bool)

  /** The loop state after some characters: the position of the next one,
      the begin and end cursors and what has been written. */
  datatype WalkState = WalkState(pos: int, b: nat, e: nat, out: seq<Token>)

  /** The walk's parameters: sorted begins and ends, the marks, and whether
      positions advance by UTF-8 width (as `range` over a Go string does) or
      by one per code point. */
  datatype Walker = Walker(begins: seq<int>, ends: seq<int>, bm: seq<Token>, em: seq<Token>, byteOffsets: bool)

  function Width(w: Walker, c: char): (n: nat)
    ensures 1 <= n
  {
    if w.byteOffsets then Utf8Width(c) else 1
  }

  /** One character: the ends at its position, then the begins, then the character. */
  function Advance(w: Walker, st: WalkState, c: char): WalkState
    requires st.b <= |w.begins| && st.e <= |w.ends|
  {
    var ne := Run(w.ends, st.e, st.pos);
    var nb := Run(w.begins, st.b, st.pos);
    WalkState(st.pos + Width(w, c), st.b + nb, st.e + ne,
              st.out + Repeat(w.em, ne) + Repeat(w.bm, nb) + [Char(c as int)])
  }

  /** The state after the first `i` characters of the line. */
  function Walked(w: Walker, line: string, i: nat): (st: WalkState)
    requires i <= |line|
    ensures st.b <= |w.begins| && st.e <= |w.ends|
  {
    if i == 0 then WalkState(0, 0, 0, [])
    else Advance(w, Walked(w, line, i - 1), line[i - 1])
  }

  lemma WalkedStep(w: Walker, line: string, i: nat)
    requires i < |line|
    ensures Walked(w, line, i + 1) == Advance(w, Walked(w, line, i), line[i])
  {
  }

  lemma AdvanceIs(w: Walker, st: WalkState, c: char, ne: nat, nb: nat)
    requires st.b <= |w.begins| && st.e <= |w.ends|
    requires ne == Run(w.ends, st.e, st.pos) && nb == Run(w.begins, st.b, st.pos)
    ensures Advance(w, st, c) == WalkState(st.pos + Width(w, c), st.b + nb, st.e + ne,
                                           st.out + Repeat(w.em, ne) + Repeat(w.bm, nb) + [Char(c as int)])
  {
  }

  /** After the last character: one end per still-open begin ("for e < b");
      the older copy writes at most one end ("if e < numMatches"). */
  function Finish(w: Walker, st: WalkState, older: bool): seq<Token>
  {
    if older then (if st.e < |w.ends| then w.em else [])
    else Repeat(w.em, if st.e < st.b then st.b - st.e else 0)
  }

  function WalkerFor(spans: seq<Span>, o: DecorOptions, byteOffsets: bool): Walker
  {
    Walker(SortInts(Begins(spans)), SortInts(Ends(spans)),
           BeginMarks(o.needColoring, o.showBrackets), EndMarks(o.needColoring, o.showBrackets), byteOffsets)
  }

  /** The whole walk: the characters with their markers, then the closing ends. */
  function DecorateWith(w: Walker, line: string, older: bool): seq<Token>
  {
    var st := Walked(w, line, |line|);
    st.out + Finish(w, st, older)
  }

  /** What insertMatchDecorations appends for a line and its spans. */
  function Decorated(line: string, spans: seq<Span>, o: DecorOptions): seq<Token>
  {
    if !o.needMatchDecorations then Chars(line)
    else DecorateWith(WalkerFor(spans, o, true), line, false)
  }

  /** The older copy in ff/findfile.go: same walk, a single trailing end. */
  function DecoratedOlder(line: string, spans: seq<Span>, o: DecorOptions): seq<Token>
  {
    if !o.needMatchDecorations then Chars(line)
    else DecorateWith(WalkerFor(spans, o, true), line, true)
  }

  /** The walk with positions counted in code points, as the spans are. */
  function DecoratedByIndex(line: string, spans: seq<Span>, o: DecorOptions): seq<Token>
  {
    if !o.needMatchDecorations then Chars(line)
    else DecorateWith(WalkerFor(spans, o, false), line, false)
  }

  lemma FinishOpen(w: Walker, st: WalkState, k: nat)
    requires k == if st.e < st.b then st.b - st.e else 0
    ensures Finish(w, st, false) == Repeat(w.em, k)
  {
  }

  /** insertMatchDecorations: appends the decorated line to `prefix`. */
  method InsertMatchDecorations(prefix: seq<Token>, line: string, spans: seq<Span>, o: DecorOptions)
    returns (r: seq<Token>)
    ensures r == prefix + Decorated(line, spans, o)
  {
    if !o.needMatchDecorations {
      return prefix + Chars(line);
    }
    var w := WalkerFor(spans, o, true);
    var out := WriteDecorated(w, line);
    r := prefix + out;
  }

  /** The body of insertMatchDecorations once the indexes are sorted: the walk,
      then "for e < b" closing every begin still open. */
  method WriteDecorated(w: Walker, line: string) returns (out: seq<Token>)
    ensures out == DecorateWith(w, line, false)
  {
    var st := WalkLine(w, line);
    var b, e := st.b, st.e;
    out := st.out;
    RepeatZero(st.out, w.em);
    while e < b
      invariant st.e <= e && (e == st.e || e <= b)
      invariant out == st.out + Repeat(w.em, e - st.e)
    {
      RepeatMore(st.out, w.em, e - st.e);
      out := out + w.em;
      e := e + 1;
    }
    FinishOpen(w, st, e - st.e);
  }

  /** The `for pos, char := range line` loop of insertMatchDecorations: at each
      position the ends there, then the begins there, then the character. */
  method WalkLine(w: Walker, line: string) returns (st: WalkState)
    ensures st == Walked(w, line, |line|)
  {
    var out: seq<Token> := [];
    var b, e := 0, 0;
    var pos := 0;
    for i := 0 to |line|
      invariant Walked(w, line, i) == WalkState(pos, b, e, out)
    {
      ghost var before := WalkState(pos, b, e, out);
      var out1, e1 := WriteMarksAt(w.ends, e, pos, w.em, out);
      var out2, b1 := WriteMarksAt(w.begins, b, pos, w.bm, out1);
      out := out2 + [Char(line[i] as int)];
      b, e := b1, e1;
      pos := pos + Width(w, line[i]);
      WalkedStep(w, line, i);
      AdvanceIs(w, before, line[i], Run(w.ends, before.e, before.pos), Run(w.begins, before.b, before.pos));
    }
    st := WalkState(pos, b, e, out);
  }

  /** One "if pos == indexes[k] { …; for duplicates … }" block: writes `m` once
      for every index from `k` on that equals `pos`. */
  method WriteMarksAt(indexes: seq<int>, k: nat, pos: int, m: seq<Token>, out: seq<Token>)
    returns (out': seq<Token>, k': nat)
    requires k <= |indexes|
    ensures k' == k + Run(indexes, k, pos)
    ensures out' == out + Repeat(m, Run(indexes, k, pos))
  {
    out', k' := out, k;
    RepeatZero(out, m);
    if k' < |indexes| && pos == indexes[k'] {
      RunStep(indexes, k', pos);
      RepeatOne(m);
      out' := out' + m;
      k' := k' + 1;
      while k' < |indexes| && indexes[k'] == pos
        invariant k < k' <= |indexes|
        invariant Run(indexes, k, pos) == (k' - k) + Run(indexes, k', pos)
        invariant out' == out + Repeat(m, k' - k)
      {
        RunStep(indexes, k', pos);
        RepeatMore(out, m, k' - k);
        out' := out' + m;
        k' := k' + 1;
      }
    }
  }

  // =====================================================================
  // What the walk guarantees

  function CountOf(t: Token, ts: seq<Token>): nat
  {
    if ts == [] then 0 else CountOf(t, ts[..|ts| - 1]) + (if ts[|ts| - 1] == t then 1 else 0)
  }

  lemma {:induction false} CountAppend(t: Token, a: seq<Token>, b: seq<Token>)
    ensures CountOf(t, a + b) == CountOf(t, a) + CountOf(t, b)
    decreases |b|
  {
    if b == [] {
      assert a + b == a;
    } else {
      assert (a + b)[..|a + b| - 1] == a + b[..|b| - 1];
      CountAppend(t, a, b[..|b| - 1]);
    }
  }

  lemma {:induction false} CountRepeat(t: Token, m: seq<Token>, k: nat)
    requires CountOf(t, m) <= 1
    ensures CountOf(t, Repeat(m, k)) == (if CountOf(t, m) == 1 then k else 0)
  {
    if k > 0 {
      CountRepeat(t, m, k - 1);
      CountAppend(t, Repeat(m, k - 1), m);
    }
  }

  /** Marks that carry exactly one color marker each: Begin for a begin, End for an end. */
  predicate ColorMarks(w: Walker)
  {
    CountOf(Begin, w.bm) == 1 && CountOf(End, w.bm) == 0 &&
    CountOf(End, w.em) == 1 && CountOf(Begin, w.em) == 0
  }

  lemma MarksWhenColoring(spans: seq<Span>, o: DecorOptions, byteOffsets: bool)
    requires o.needColoring
    ensures ColorMarks(WalkerFor(spans, o, byteOffsets))
  {
    var bm, em := BeginMarks(true, o.showBrackets), EndMarks(true, o.showBrackets);
    if o.showBrackets {
      CountPair(Begin, Char('[' as int));
      CountPair(Char(']' as int), End);
      assert bm == [Begin, Char('[' as int)] && em == [Char(']' as int), End];
    } else {
      CountPair(Begin, Char(' ' as int));
      CountPair(Char(' ' as int), End);
      assert bm == [Begin] && em == [End];
    }
  }

  lemma CountPair(x: Token, y: Token)
    ensures forall t :: CountOf(t, [x]) == (if x == t then 1 else 0)
    ensures forall t :: CountOf(t, [x, y]) == (if x == t then 1 else 0) + (if y == t then 1 else 0)
  {
    assert [x][..0] == [];
    assert [x, y][..1] == [x];
    forall t
      ensures CountOf(t, [x, y]) == (if x == t then 1 else 0) + (if y == t then 1 else 0)
    {
      assert CountOf(t, [x, y]) == CountOf(t, [x]) + (if y == t then 1 else 0);
    }
  }

  lemma AdvanceCounts(w: Walker, st: WalkState, c: char)
    requires st.b <= |w.begins| && st.e <= |w.ends| && ColorMarks(w)
    requires CountOf(Begin, st.out) == st.b && CountOf(End, st.out) == st.e
    ensures CountOf(Begin, Advance(w, st, c).out) == Advance(w, st, c).b
    ensures CountOf(End, Advance(w, st, c).out) == Advance(w, st, c).e
  {
    var ne, nb := Run(w.ends, st.e, st.pos), Run(w.begins, st.b, st.pos);
    var es, bs, cs := Repeat(w.em, ne), Repeat(w.bm, nb), [Char(c as int)];
    AdvanceIs(w, st, c, ne, nb);
    assert cs[..0] == [];
    forall t | t == Begin || t == End
      ensures CountOf(t, st.out + es + bs + cs) == CountOf(t, st.out) + CountOf(t, es) + CountOf(t, bs)
    {
      CountAppend(t, st.out, es);
      CountAppend(t, st.out + es, bs);
      CountAppend(t, st.out + es + bs, cs);
    }
    CountRepeat(Begin, w.em, ne);
    CountRepeat(Begin, w.bm, nb);
    CountRepeat(End, w.em, ne);
    CountRepeat(End, w.bm, nb);
  }

  /** Every marker written so far is counted by the cursors. */
  lemma {:induction false} WalkedCounts(w: Walker, line: string, i: nat)
    requires i <= |line| && ColorMarks(w)
    ensures CountOf(Begin, Walked(w, line, i).out) == Walked(w, line, i).b
    ensures CountOf(End, Walked(w, line, i).out) == Walked(w, line, i).e
  {
    if i > 0 {
      WalkedCounts(w, line, i - 1);
      AdvanceCounts(w, Walked(w, line, i - 1), line[i - 1]);
    }
  }

  /** The whole output has one Begin per begin reached, and one End for each
      end reached or begin left open. */
  lemma DecorateCounts(w: Walker, line: string)
    requires ColorMarks(w)
    ensures var st := Walked(w, line, |line|);
            CountOf(Begin, DecorateWith(w, line, false)) == st.b &&
            CountOf(End, DecorateWith(w, line, false)) == (if st.e < st.b then st.b else st.e)
  {
    var st := Walked(w, line, |line|);
    WalkedCounts(w, line, |line|);
    var k := if st.e < st.b then st.b - st.e else 0;
    FinishOpen(w, st, k);
    CountAppend(Begin, st.out, Repeat(w.em, k));
    CountAppend(End, st.out, Repeat(w.em, k));
    CountRepeat(Begin, w.em, k);
    CountRepeat(End, w.em, k);
  }

  /** The older copy closes at most one span after the last character. */
  lemma DecorateCountsOlder(w: Walker, line: string)
    requires ColorMarks(w)
    ensures var st := Walked(w, line, |line|);
            CountOf(Begin, DecorateWith(w, line, true)) == st.b &&
            CountOf(End, DecorateWith(w, line, true)) == st.e + (if st.e < |w.ends| then 1 else 0)
  {
    var st := Walked(w, line, |line|);
    WalkedCounts(w, line, |line|);
    var f := Finish(w, st, true);
    assert f == if st.e < |w.ends| then w.em else [];
    CountAppend(Begin, st.out, f);
    CountAppend(End, st.out, f);
  }

  // ---------------------------------------------------------------------
  // Reaching every begin

  lemma {:induction false} RunFacts(xs: seq<int>, k: nat, p: int)
    requires k <= |xs|
    ensures forall j :: k <= j < k + Run(xs, k, p) ==> xs[j] == p
    ensures k + Run(xs, k, p) < |xs| ==> xs[k + Run(xs, k, p)] != p
    decreases |xs| - k
  {
    if k < |xs| && xs[k] == p {
      RunFacts(xs, k + 1, p);
    }
  }

  /** Positions advance by one per character: by code point, or by byte on an
      ASCII line. */
  predicate OnePerChar(w: Walker, line: string)
  {
    !w.byteOffsets || IsAscii(line)
  }

  lemma AdvancePassed(w: Walker, st: WalkState, c: char, i: nat)
    requires st.b <= |w.begins| && st.e <= |w.ends| && Width(w, c) == 1
    requires SortedInts(w.begins)
    requires st.pos == i
    requires forall k :: 0 <= k < st.b ==> w.begins[k] < i
    requires forall k :: st.b <= k < |w.begins| ==> w.begins[k] >= i
    ensures Advance(w, st, c).pos == i + 1
    ensures forall k :: 0 <= k < Advance(w, st, c).b ==> w.begins[k] < i + 1
    ensures forall k :: Advance(w, st, c).b <= k < |w.begins| ==> w.begins[k] >= i + 1
  {
    var nb := Run(w.begins, st.b, st.pos);
    RunFacts(w.begins, st.b, st.pos);
    var b' := st.b + nb;
    assert Advance(w, st, c).b == b';
    if b' < |w.begins| {
      assert w.begins[b'] >= i + 1;
      assert forall k :: b' <= k < |w.begins| ==> w.begins[b'] <= w.begins[k];
    }
  }

  /** With one position per character and sorted begins, after `i` characters
      the cursor `b` has passed exactly the begins below `i`. */
  lemma {:induction false} WalkedPassed(w: Walker, line: string, i: nat)
    requires i <= |line| && OnePerChar(w, line)
    requires SortedInts(w.begins)
    requires forall k :: 0 <= k < |w.begins| ==> 0 <= w.begins[k]
    ensures Walked(w, line, i).pos == i
    ensures forall k :: 0 <= k < Walked(w, line, i).b ==> w.begins[k] < i
    ensures forall k :: Walked(w, line, i).b <= k < |w.begins| ==> w.begins[k] >= i
  {
    if i > 0 {
      WalkedPassed(w, line, i - 1);
      assert Width(w, line[i - 1]) == 1;
      AdvancePassed(w, Walked(w, line, i - 1), line[i - 1], i - 1);
    }
  }

  /** Every begin inside the line is reached. */
  lemma AllBegun(w: Walker, line: string)
    requires OnePerChar(w, line) && SortedInts(w.begins)
    requires forall k :: 0 <= k < |w.begins| ==> 0 <= w.begins[k] < |line|
    ensures Walked(w, line, |line|).b == |w.begins|
  {
    WalkedPassed(w, line, |line|);
  }

  lemma SortedMembers(xs: seq<int>)
    ensures forall k :: 0 <= k < |SortInts(xs)| ==> SortInts(xs)[k] in xs
  {
    var r := SortInts(xs);
    forall k | 0 <= k < |r|
      ensures r[k] in xs
    {
      assert r[k] in multiset(r);
    }
  }

  /** Spans whose begins lie inside the line. */
  predicate BeginsInside(spans: seq<Span>, line: string)
  {
    forall k :: 0 <= k < |spans| ==> 0 <= spans[k].beginIndex < |line|
  }

  lemma WalkerBegins(spans: seq<Span>, line: string, o: DecorOptions, byteOffsets: bool)
    requires BeginsInside(spans, line)
    ensures var w := WalkerFor(spans, o, byteOffsets);
            SortedInts(w.begins) && |w.begins| == |w.ends| == |spans| &&
            forall k :: 0 <= k < |w.begins| ==> 0 <= w.begins[k] < |line|
  {
    SortedMembers(Begins(spans));
    var bs := Begins(spans);
    assert forall x :: x in bs ==> 0 <= x < |line|;
  }

  /** Positions in code points: on any line, with every begin inside it, the
      Begin and End markers both number the spans. */
  lemma DecoratedByIndexBalanced(line: string, spans: seq<Span>, o: DecorOptions)
    requires o.needMatchDecorations && o.needColoring && BeginsInside(spans, line)
    ensures CountOf(Begin, DecoratedByIndex(line, spans, o)) == |spans|
    ensures CountOf(End, DecoratedByIndex(line, spans, o)) == |spans|
  {
    var w := WalkerFor(spans, o, false);
    MarksWhenColoring(spans, o, false);
    WalkerBegins(spans, line, o, false);
    AllBegun(w, line);
    DecorateCounts(w, line);
  }

  /** insertMatchDecorations as written is balanced on ASCII lines, where byte
      offsets and code-point indexes agree. */
  lemma DecoratedBalancedAscii(line: string, spans: seq<Span>, o: DecorOptions)
    requires o.needMatchDecorations && o.needColoring && BeginsInside(spans, line) && IsAscii(line)
    ensures CountOf(Begin, Decorated(line, spans, o)) == |spans|
    ensures CountOf(End, Decorated(line, spans, o)) == |spans|
  {
    var w := WalkerFor(spans, o, true);
    MarksWhenColoring(spans, o, true);
    WalkerBegins(spans, line, o, true);
    AllBegun(w, line);
    DecorateCounts(w, line);
  }

  // ---------------------------------------------------------------------
  // Removing the markers gives the line back

  lemma {:induction false} VisibleRepeat(m: seq<Token>, k: nat)
    requires Visible(m) == []
    ensures Visible(Repeat(m, k)) == []
  {
    if k > 0 {
      VisibleRepeat(m, k - 1);
      VisibleAppend(Repeat(m, k - 1), m);
    }
  }

  lemma AdvanceVisible(w: Walker, st: WalkState, c: char)
    requires st.b <= |w.begins| && st.e <= |w.ends| && Visible(w.bm) == [] && Visible(w.em) == []
    ensures Visible(Advance(w, st, c).out) == Visible(st.out) + [c as int]
  {
    var ne, nb := Run(w.ends, st.e, st.pos), Run(w.begins, st.b, st.pos);
    var es, bs, cs := Repeat(w.em, ne), Repeat(w.bm, nb), [Char(c as int)];
    AdvanceIs(w, st, c, ne, nb);
    VisibleRepeat(w.em, ne);
    VisibleRepeat(w.bm, nb);
    VisibleAppend(st.out, es);
    VisibleAppend(st.out + es, bs);
    VisibleAppend(st.out + es + bs, cs);
    assert cs[..0] == [];
  }

  lemma CodePointsSnoc(line: string, i: nat)
    requires 0 < i <= |line|
    ensures CodePoints(line[..i]) == CodePoints(line[..i - 1]) + [line[i - 1] as int]
  {
    assert line[..i] == line[..i - 1] + [line[i - 1]];
    CodePointsAppend(line[..i - 1], [line[i - 1]]);
  }

  lemma {:induction false} WalkedVisible(w: Walker, line: string, i: nat)
    requires i <= |line| && Visible(w.bm) == [] && Visible(w.em) == []
    ensures Visible(Walked(w, line, i).out) == CodePoints(line[..i])
  {
    if i > 0 {
      var prev, c := Walked(w, line, i - 1), line[i - 1];
      assert Walked(w, line, i) == Advance(w, prev, c);
      WalkedVisible(w, line, i - 1);
      AdvanceVisible(w, prev, c);
      CodePointsSnoc(line, i);
    }
  }

  lemma InvisibleMarks(coloring: bool)
    ensures Visible(BeginMarks(coloring, false)) == [] && Visible(EndMarks(coloring, false)) == []
  {
    assert [Begin][..0] == [] && [End][..0] == [];
  }

  /** Without brackets, deleting the markers from the decorated line gives its
      code points back, whatever the spans and however positions are counted. */
  lemma DecoratedVisible(line: string, spans: seq<Span>, o: DecorOptions)
    requires !o.showBrackets
    ensures Visible(Decorated(line, spans, o)) == CodePoints(line)
  {
    if !o.needMatchDecorations {
      VisibleChars(line);
    } else {
      var w := WalkerFor(spans, o, true);
      InvisibleMarks(o.needColoring);
      WalkedVisible(w, line, |line|);
      var st := Walked(w, line, |line|);
      var k := if st.e < st.b then st.b - st.e else 0;
      FinishOpen(w, st, k);
      VisibleRepeat(w.em, k);
      VisibleAppend(st.out, Repeat(w.em, k));
      assert line[..|line|] == line;
    }
  }

  // ---------------------------------------------------------------------
  // Ends before begins at one position

  /** No End marker directly after a Begin marker: a highlight never closes
      before it has shown a character. */
  predicate NoEmptyHighlight(ts: seq<Token>)
  {
    forall k :: 0 <= k < |ts| - 1 && ts[k] == Begin ==> ts[k + 1] != End
  }

  lemma NoEmptyHighlightAppend(a: seq<Token>, b: seq<Token>)
    requires NoEmptyHighlight(a) && NoEmptyHighlight(b)
    requires a != [] && a[|a| - 1] == Begin && b != [] ==> b[0] != End
    ensures NoEmptyHighlight(a + b)
  {
    var r := a + b;
    forall k | 0 <= k < |r| - 1 && r[k] == Begin
      ensures r[k + 1] != End
    {
      if k >= |a| {
        assert r[k] == b[k - |a|] && r[k + 1] == b[k + 1 - |a|];
      }
    }
  }

  lemma {:induction false} RepeatWithout(m: seq<Token>, k: nat, t: Token)
    requires t !in m
    ensures t !in Repeat(m, k)
  {
    if k > 0 {
      RepeatWithout(m, k - 1, t);
    }
  }

  /** Text or nothing at the end: what every step of the walk leaves. */
  predicate EndsInText(ts: seq<Token>)
  {
    ts == [] || ts[|ts| - 1].Char?
  }

  lemma AdvanceNoEmptyHighlight(w: Walker, st: WalkState, c: char)
    requires st.b <= |w.begins| && st.e <= |w.ends| && End !in w.bm && Begin !in w.em
    requires NoEmptyHighlight(st.out) && EndsInText(st.out)
    ensures NoEmptyHighlight(Advance(w, st, c).out) && EndsInText(Advance(w, st, c).out)
  {
    var ne, nb := Run(w.ends, st.e, st.pos), Run(w.begins, st.b, st.pos);
    var es, bs := Repeat(w.em, ne), Repeat(w.bm, nb);
    AdvanceIs(w, st, c, ne, nb);
    RepeatWithout(w.em, ne, Begin);
    RepeatWithout(w.bm, nb, End);
    NoEmptyHighlightAppend(st.out, es);
    NoEmptyHighlightAppend(st.out + es, bs);
    NoEmptyHighlightAppend(st.out + es + bs, [Char(c as int)]);
  }

  lemma {:induction false} WalkedNoEmptyHighlight(w: Walker, line: string, i: nat)
    requires i <= |line| && End !in w.bm && Begin !in w.em
    ensures NoEmptyHighlight(Walked(w, line, i).out) && EndsInText(Walked(w, line, i).out)
  {
    if i > 0 {
      WalkedNoEmptyHighlight(w, line, i - 1);
      AdvanceNoEmptyHighlight(w, Walked(w, line, i - 1), line[i - 1]);
    }
  }

  /** insertMatchDecorations writes the ends at a position before the begins
      there, so no End ever directly follows a Begin. */
  lemma DecoratedNoEmptyHighlight(line: string, spans: seq<Span>, o: DecorOptions)
    ensures NoEmptyHighlight(Decorated(line, spans, o))
  {
    if o.needMatchDecorations {
      var w := WalkerFor(spans, o, true);
      WalkedNoEmptyHighlight(w, line, |line|);
      var st := Walked(w, line, |line|);
      var k := if st.e < st.b then st.b - st.e else 0;
      FinishOpen(w, st, k);
      RepeatWithout(w.em, k, Begin);
      NoEmptyHighlightAppend(st.out, Repeat(w.em, k));
    }
  }

  // ---------------------------------------------------------------------
  // Where the byte offsets and the older copy go wrong

  /** "éxy" with the span [1, 2) around "x": the é takes two bytes, so the walk
      sees positions 0, 2, 3. The end (2) is reached, the begin (1) never is,
      and an End is written with no Begin before it. */
  lemma NonAsciiUnbalanced()
    ensures CountOf(Begin, Decorated([0xE9 as char, 'x', 'y'], [Span(1, 2)], DecorOptions(true, true, false))) == 0
    ensures CountOf(End, Decorated([0xE9 as char, 'x', 'y'], [Span(1, 2)], DecorOptions(true, true, false))) == 1
  {
    var line, spans, o := [0xE9 as char, 'x', 'y'], [Span(1, 2)], DecorOptions(true, true, false);
    var w := WalkerFor(spans, o, true);
    assert Begins(spans) == [1] && Ends(spans) == [2];
    assert SortInts([1]) == [1] && SortInts([2]) == [2];
    MarksWhenColoring(spans, o, true);
    assert Walked(w, line, 1).pos == 2 && Walked(w, line, 1).b == 0 && Walked(w, line, 1).e == 0;
    assert Walked(w, line, 2).pos == 3 && Walked(w, line, 2).b == 0 && Walked(w, line, 2).e == 1;
    assert Walked(w, line, 3).b == 0 && Walked(w, line, 3).e == 1;
    DecorateCounts(w, line);
  }

  /** Two spans ending at the end of "ab": the current copy closes both, the
      older copy only one, leaving the highlight open. */
  lemma OlderLeavesHighlightOpen()
    ensures CountOf(End, Decorated("ab", [Span(0, 2), Span(1, 2)], DecorOptions(true, true, false))) == 2
    ensures CountOf(Begin, DecoratedOlder("ab", [Span(0, 2), Span(1, 2)], DecorOptions(true, true, false))) == 2
    ensures CountOf(End, DecoratedOlder("ab", [Span(0, 2), Span(1, 2)], DecorOptions(true, true, false))) == 1
  {
    var line, spans, o := "ab", [Span(0, 2), Span(1, 2)], DecorOptions(true, true, false);
    assert BeginsInside(spans, line);
    DecoratedBalancedAscii(line, spans, o);
    OlderClosesOne(line, spans, o);
  }

  lemma OlderClosesOne(line: string, spans: seq<Span>, o: DecorOptions)
    requires line == "ab" && spans == [Span(0, 2), Span(1, 2)] && o == DecorOptions(true, true, false)
    ensures CountOf(Begin, DecoratedOlder(line, spans, o)) == 2
    ensures CountOf(End, DecoratedOlder(line, spans, o)) == 1
  {
    var w := WalkerFor(spans, o, true);
    OlderWalkBegins(line, spans, o);
    OlderEnds(spans, o);
    assert Width(w, line[0]) == 1;
    NoEndBeforeTwo(w, line);
    DecorateCountsOlder(w, line);
  }

  /** The older walk over "ab" opens both spans. */
  lemma OlderWalkBegins(line: string, spans: seq<Span>, o: DecorOptions)
    requires line == "ab" && spans == [Span(0, 2), Span(1, 2)] && o == DecorOptions(true, true, false)
    ensures ColorMarks(WalkerFor(spans, o, true))
    ensures Walked(WalkerFor(spans, o, true), line, 2).b == 2
  {
    var w := WalkerFor(spans, o, true);
    assert BeginsInside(spans, line);
    MarksWhenColoring(spans, o, true);
    WalkerBegins(spans, line, o, true);
    AllBegun(w, line);
  }

  /** Both spans of the older example end at byte 2, and offsets are bytes. */
  lemma OlderEnds(spans: seq<Span>, o: DecorOptions)
    requires spans == [Span(0, 2), Span(1, 2)]
    ensures WalkerFor(spans, o, true).ends == [2, 2]
    ensures WalkerFor(spans, o, true).byteOffsets
  {
    assert Ends(spans) == [2, 2];
    assert SortInts([2, 2]) == [2, 2];
  }

  /** Ends at position 2 are not reached within the first two characters
      when the first is one byte wide. */
  lemma NoEndBeforeTwo(w: Walker, line: string)
    requires |line| == 2 && w.ends == [2, 2] && Width(w, line[0]) == 1
    ensures Walked(w, line, 2).e == 0
  {
    WalkedCounters(w, line, 0);
    assert Run(w.ends, 0, 0) == 0;
    WalkedCounters(w, line, 1);
    assert Run(w.ends, 0, 1) == 0;
  }

  /** How one character moves the position and the end counter. */
  lemma WalkedCounters(w: Walker, line: string, i: nat)
    requires i < |line|
    ensures Walked(w, line, i + 1).pos == Walked(w, line, i).pos + Width(w, line[i])
    ensures Walked(w, line, i + 1).e == Walked(w, line, i).e + Run(w.ends, Walked(w, line, i).e, Walked(w, line, i).pos)
  {
    WalkedStep(w, line, i);
  }
}
