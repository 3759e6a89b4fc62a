/** The per-line output transforms of ff/format.go: tab expansion, control
    character scrubbing, the visible-index mapping, the context-column window
    and the truncation to it. Lines are token sequences (code points and
    highlight markers). */
module Transform {
  import opened Wrappers
  import opened Util
  import opened Matching
  import opened Format

  const Tab := Char('\t' as int)

  /** The number of tokens that take up a column when printed. */
  function VisCount(ts: seq<Token>): nat
  {
    |Visible(ts)|
  }

  lemma VisCountSnoc(ts: seq<Token>, t: Token)
    ensures VisCount(ts + [t]) == VisCount(ts) + (if t.Char? then 1 else 0)
  {
    assert (ts + [t])[..|ts + [t]| - 1] == ts;
  }

  lemma {:induction false} VisCountAllChars(ts: seq<Token>)
    requires forall k :: 0 <= k < |ts| ==> ts[k].Char?
    ensures VisCount(ts) == |ts|
  {
    if ts != [] {
      var p := ts[..|ts| - 1];
      VisCountAllChars(p);
      VisCountSnoc(p, ts[|ts| - 1]);
      assert p + [ts[|ts| - 1]] == ts;
    }
  }

  /** The markers of a token sequence, in order. */
  function Markers(ts: seq<Token>): seq<Token>
  {
    if ts == [] then []
    else Markers(ts[..|ts| - 1]) + (if ts[|ts| - 1].Char? then [] else [ts[|ts| - 1]])
  }

  lemma {:induction false} MarkersAppend(s: seq<Token>, t: seq<Token>)
    ensures Markers(s + t) == Markers(s) + Markers(t)
    decreases |t|
  {
    if t == [] {
      assert s + t == s;
    } else {
      var u := t[..|t| - 1];
      assert (s + t)[..|s + t| - 1] == s + u;
      MarkersAppend(s, u);
    }
  }

  lemma {:induction false} MarkersAllChars(ts: seq<Token>)
    requires forall k :: 0 <= k < |ts| ==> ts[k].Char?
    ensures Markers(ts) == []
  {
    if ts != [] {
      MarkersAllChars(ts[..|ts| - 1]);
    }
  }

  // =====================================================================
  // Tabs (transformTabs, appendTab)

  /** What appendTab writes for a tab of `tabSize` columns: `-…->` when tabs are
      shown, spaces otherwise. */
  function TabFill(tabSize: int, showTabs: bool): (r: seq<Token>)
    ensures showTabs ==> |r| == (if tabSize > 1 then tabSize else 1) && r[|r| - 1] == Char('>' as int)
    ensures showTabs ==> forall k :: 0 <= k < |r| - 1 ==> r[k] == Char('-' as int)
    ensures !showTabs ==> |r| == (if tabSize > 0 then tabSize else 0)
    ensures !showTabs ==> forall k :: 0 <= k < |r| ==> r[k] == Char(' ' as int)
  {
    if showTabs then seq(if tabSize > 1 then tabSize - 1 else 0, _ => Char('-' as int)) + [Char('>' as int)]
    else seq(if tabSize > 0 then tabSize else 0, _ => Char(' ' as int))
  }

  lemma TabFillShape(tabSize: int, showTabs: bool)
    ensures forall k :: 0 <= k < |TabFill(tabSize, showTabs)| ==> TabFill(tabSize, showTabs)[k].Char?
    ensures Tab !in TabFill(tabSize, showTabs)
  {
  }

  /** appendTab. */
  method AppendTab(prefix: seq<Token>, tabSize: int, showTabs: bool) returns (r: seq<Token>)
    ensures r == prefix + TabFill(tabSize, showTabs)
  {
    r := prefix;
    if showTabs {
      var i := tabSize - 1;
      while i > 0
        invariant 0 <= tabSize - 1 - i && (0 <= i || i == tabSize - 1)
        invariant r == prefix + seq(tabSize - 1 - i, _ => Char('-' as int))
      {
        r := r + [Char('-' as int)];
        i := i - 1;
      }
      r := r + [Char('>' as int)];
    } else {
      var i := tabSize;
      while i > 0
        invariant 0 <= tabSize - i && (0 <= i || i == tabSize)
        invariant r == prefix + seq(tabSize - i, _ => Char(' ' as int))
      {
        r := r + [Char(' ' as int)];
        i := i - 1;
      }
    }
  }

  /** The expansion so far and the column counted since the last tab. */
  datatype TabState = TabState(out: seq<Token>, col: int)

  /** One token of the expansion: a tab fills to the tab stop and resets the
      column; a character counts a column (modulo the spacing); a marker is
      copied without counting. */
  function TabStep(st: TabState, t: Token, spacing: int, showTabs: bool): TabState
  {
    if t == Tab then TabState(st.out + TabFill(spacing - st.col, showTabs), 0)
    else if t.Char? then TabState(st.out + [t], if st.col + 1 >= spacing then 0 else st.col + 1)
    else TabState(st.out + [t], st.col)
  }

  function Expanded(a: seq<Token>, n: nat, spacing: int, showTabs: bool): TabState
    requires n <= |a|
  {
    if n == 0 then TabState([], 0) else TabStep(Expanded(a, n - 1, spacing, showTabs), a[n - 1], spacing, showTabs)
  }

  /** What transformTabs returns: the line itself when it has no tab. */
  function TransformTabs(a: seq<Token>, spacing: int, showTabs: bool): seq<Token>
  {
    if Tab !in a then a else Expanded(a, |a|, spacing, showTabs).out
  }

  /** intArrayContainsTabs. */
  method IntArrayContainsTabs(a: seq<Token>) returns (r: bool)
    ensures r <==> Tab in a
  {
    for i := 0 to |a|
      invariant Tab !in a[..i]
    {
      if a[i] == Tab {
        return true;
      }
    }
    assert a[..|a|] == a;
    return false;
  }

  /** transformTabs. */
  method TransformTabsMethod(a: seq<Token>, spacing: int, showTabs: bool) returns (r: seq<Token>)
    ensures r == TransformTabs(a, spacing, showTabs)
  {
    var hasTabs := IntArrayContainsTabs(a);
    if !hasTabs {
      return a;
    }
    var col := 0;
    r := [];
    for i := 0 to |a|
      invariant Expanded(a, i, spacing, showTabs) == TabState(r, col)
    {
      var t := a[i];
      if t == Tab {
        r := AppendTab(r, spacing - col, showTabs);
        col := 0;
      } else {
        r := r + [t];
        if t.Char? {
          col := col + 1;
          if col >= spacing {
            col := 0;
          }
        }
      }
    }
  }

  /** The shortcut for tab-free lines agrees with the expansion. */
  lemma {:induction false} ExpandedWithoutTabs(a: seq<Token>, n: nat, spacing: int, showTabs: bool)
    requires n <= |a| && Tab !in a
    ensures Expanded(a, n, spacing, showTabs).out == a[..n]
  {
    if n > 0 {
      ExpandedWithoutTabs(a, n - 1, spacing, showTabs);
      assert a[..n] == a[..n - 1] + [a[n - 1]];
    }
  }

  lemma TabStepMarkers(st: TabState, t: Token, spacing: int, showTabs: bool)
    requires Tab !in st.out
    ensures Tab !in TabStep(st, t, spacing, showTabs).out
    ensures Markers(TabStep(st, t, spacing, showTabs).out) == Markers(st.out) + Markers([t])
  {
    assert [t][..0] == [];
    if t == Tab {
      var f := TabFill(spacing - st.col, showTabs);
      TabFillShape(spacing - st.col, showTabs);
      MarkersAllChars(f);
      MarkersAppend(st.out, f);
    } else {
      MarkersAppend(st.out, [t]);
    }
  }

  /** Expansion leaves no tab behind and keeps every marker in order. */
  lemma {:induction false} ExpandedTabsGone(a: seq<Token>, n: nat, spacing: int, showTabs: bool)
    requires n <= |a|
    ensures Tab !in Expanded(a, n, spacing, showTabs).out
    ensures Markers(Expanded(a, n, spacing, showTabs).out) == Markers(a[..n])
  {
    if n > 0 {
      var p, t := a[..n - 1], a[n - 1];
      assert a[..n] == p + [t] by {
        assert p == a[..n][..n - 1];
      }
      MarkersAppend(p, [t]);
      assert p == a[..n - 1];
      ExpandedTabsGone(a, n - 1, spacing, showTabs);
      TabStepMarkers(Expanded(a, n - 1, spacing, showTabs), t, spacing, showTabs);
    }
  }

  lemma TransformTabsProperties(a: seq<Token>, spacing: int, showTabs: bool)
    ensures Tab !in TransformTabs(a, spacing, showTabs)
    ensures Markers(TransformTabs(a, spacing, showTabs)) == Markers(a)
  {
    ExpandedTabsGone(a, |a|, spacing, showTabs);
    assert a[..|a|] == a;
  }

  /** `v` is a whole number of tab stops of width `spacing`. */
  predicate AtTabStop(v: int, spacing: int)
    requires spacing >= 1
    decreases v
  {
    v == 0 || (v >= spacing && AtTabStop(v - spacing, spacing))
  }

  lemma ColumnStep(st: TabState, t: Token, spacing: int, showTabs: bool)
    requires spacing >= 1 && 0 <= st.col < spacing && AtTabStop(VisCount(st.out) - st.col, spacing)
    ensures 0 <= TabStep(st, t, spacing, showTabs).col < spacing
    ensures AtTabStop(VisCount(TabStep(st, t, spacing, showTabs).out) - TabStep(st, t, spacing, showTabs).col, spacing)
  {
    if t == Tab {
      TabFillWidth(st.out, st.col, spacing, showTabs);
      assert AtTabStop(VisCount(st.out) - st.col + spacing, spacing);
    } else {
      VisCountSnoc(st.out, t);
      if t.Char? && st.col + 1 >= spacing {
        assert AtTabStop(VisCount(st.out) + 1, spacing);
      }
    }
  }

  lemma TabFillWidth(out: seq<Token>, col: int, spacing: int, showTabs: bool)
    requires 0 <= col < spacing
    ensures VisCount(out + TabFill(spacing - col, showTabs)) == VisCount(out) - col + spacing
  {
    var f := TabFill(spacing - col, showTabs);
    TabFillShape(spacing - col, showTabs);
    VisCountAllChars(f);
    VisibleAppend(out, f);
  }

  /** With a positive spacing the column counts the printed width since the
      last tab stop, so every tab fills exactly to the next stop. */
  lemma {:induction false} ExpandedColumn(a: seq<Token>, n: nat, spacing: int, showTabs: bool)
    requires n <= |a| && spacing >= 1
    ensures 0 <= Expanded(a, n, spacing, showTabs).col < spacing
    ensures AtTabStop(VisCount(Expanded(a, n, spacing, showTabs).out) - Expanded(a, n, spacing, showTabs).col, spacing)
  {
    if n > 0 {
      var st := Expanded(a, n - 1, spacing, showTabs);
      assert Expanded(a, n, spacing, showTabs) == TabStep(st, a[n - 1], spacing, showTabs);
      ExpandedColumn(a, n - 1, spacing, showTabs);
      ColumnStep(st, a[n - 1], spacing, showTabs);
    }
  }

  /** Right after a tab the printed width is at a tab stop. */
  lemma TabStop(a: seq<Token>, n: nat, spacing: int, showTabs: bool)
    requires 0 < n <= |a| && spacing >= 1 && a[n - 1] == Tab
    ensures AtTabStop(VisCount(Expanded(a, n, spacing, showTabs).out), spacing)
  {
    ExpandedColumn(a, n, spacing, showTabs);
  }

  // =====================================================================
  // Control characters (replaceControlCharacters)

  predicate IsControlToken(t: Token)
  {
    t.Char? && IsControlCharacter(t.c)
  }

  predicate HasControlToken(a: seq<Token>)
  {
    exists k :: 0 <= k < |a| && IsControlToken(a[k])
  }

  /** replaceControlCharacters as written: the copy into a zero-length slice
      copies nothing, so a line with a control character comes back empty. */
  function ReplaceControl(a: seq<Token>, showControlChars: bool): (r: seq<Token>)
    ensures r == a || r == []
    ensures r == [] <==> a == [] || (!showControlChars && HasControlToken(a))
  {
    if showControlChars || !HasControlToken(a) then a else []
  }

  /** replaceControlCharacters. The copy into a slice of length zero copies
      nothing, so the scrubbing loop runs over an empty copy. */
  method ReplaceControlCharacters(a: seq<Token>, showControlChars: bool) returns (r: seq<Token>)
    ensures r == ReplaceControl(a, showControlChars)
  {
    if showControlChars {
      return a;
    }
    var has := false;
    for i := 0 to |a|
      invariant has <==> exists k :: 0 <= k < i && IsControlToken(a[k])
    {
      if IsControlToken(a[i]) {
        has := true;
      }
    }
    if !has {
      return a;
    }
    var copied := a[..0];
    r := ScrubInto(copied);
  }

  /** The scrubbing loop of replaceControlCharacters. */
  method ScrubInto(src: seq<Token>) returns (r: seq<Token>)
    ensures r == ScrubControl(src)
  {
    r := [];
    for i := 0 to |src|
      invariant r == ScrubControl(src[..i])
    {
      r := r + [if IsControlToken(src[i]) then Char(' ' as int) else src[i]];
      assert src[..i + 1] == src[..i] + [src[i]];
    }
    assert src[..|src|] == src;
  }

  /** The evident intent: every control character becomes a space, keeping the
      spacing of the line. */
  function ScrubControl(a: seq<Token>): (r: seq<Token>)
    ensures |r| == |a|
    ensures forall k :: 0 <= k < |a| ==> r[k] == (if IsControlToken(a[k]) then Char(' ' as int) else a[k])
  {
    seq(|a|, k requires 0 <= k < |a| => if IsControlToken(a[k]) then Char(' ' as int) else a[k])
  }

  lemma ScrubControlKeepsLine(a: seq<Token>)
    ensures !HasControlToken(ScrubControl(a))
    ensures VisCount(ScrubControl(a)) == VisCount(a)
    ensures Markers(ScrubControl(a)) == Markers(a)
    ensures !HasControlToken(a) ==> ScrubControl(a) == a
  {
    ScrubControlPrefix(a, |a|);
    assert ScrubControl(a)[..|a|] == ScrubControl(a);
    assert a[..|a|] == a;
  }

  lemma {:induction false} ScrubControlPrefix(a: seq<Token>, n: nat)
    requires n <= |a|
    ensures VisCount(ScrubControl(a)[..n]) == VisCount(a[..n])
    ensures Markers(ScrubControl(a)[..n]) == Markers(a[..n])
  {
    if n > 0 {
      ScrubControlPrefix(a, n - 1);
      var r := ScrubControl(a);
      assert r[..n] == r[..n - 1] + [r[n - 1]];
      assert a[..n] == a[..n - 1] + [a[n - 1]];
      VisCountSnoc(r[..n - 1], r[n - 1]);
      VisCountSnoc(a[..n - 1], a[n - 1]);
      MarkersAppend(r[..n - 1], [r[n - 1]]);
      MarkersAppend(a[..n - 1], [a[n - 1]]);
      assert [r[n - 1]][..0] == [] && [a[n - 1]][..0] == [];
    }
  }

  /** "a\x01": the line as written comes back empty; scrubbed, it keeps its two columns. */
  lemma ControlLineEmptied()
    ensures ReplaceControl([Char('a' as int), Char(1)], false) == []
    ensures ScrubControl([Char('a' as int), Char(1)]) == [Char('a' as int), Char(' ' as int)]
  {
    assert IsControlToken([Char('a' as int), Char(1)][1]);
  }

  // =====================================================================
  // Index searches (the loops of truncateToContextColumns)

  /** The first index below `n` holding `v`, or -1. */
  function FirstBelow<T(==)>(xs: seq<T>, v: T, n: nat): (r: int)
    requires n <= |xs|
    ensures r == -1 || (0 <= r < n && xs[r] == v)
    ensures forall k :: 0 <= k < n && (r < 0 || k < r) ==> xs[k] != v
  {
    if n == 0 then -1
    else
      var r := FirstBelow(xs, v, n - 1);
      if r >= 0 then r else if xs[n - 1] == v then n - 1 else -1
  }

  /** The last index below `n` holding `v`, or -1. */
  function LastBelow<T(==)>(xs: seq<T>, v: T, n: nat): (r: int)
    requires n <= |xs|
    ensures r == -1 || (0 <= r < n && xs[r] == v)
    ensures forall k :: 0 <= k < n && r < k ==> xs[k] != v
  {
    if n == 0 then -1 else if xs[n - 1] == v then n - 1 else LastBelow(xs, v, n - 1)
  }

  /** The forward search with `break` of truncateToContextColumns. */
  method FindFirstIndex(xs: seq<int>, v: int) returns (r: int)
    ensures r == FirstBelow(xs, v, |xs|)
  {
    for i := 0 to |xs|
      invariant forall k :: 0 <= k < i ==> xs[k] != v
    {
      if xs[i] == v {
        return i;
      }
    }
    return -1;
  }

  /** The backward search with `break` of truncateToContextColumns. */
  method FindLastIndex(xs: seq<int>, v: int) returns (r: int)
    ensures r == LastBelow(xs, v, |xs|)
  {
    var i := |xs| - 1;
    while i >= 0
      invariant -1 <= i < |xs|
      invariant forall k :: i < k < |xs| ==> xs[k] != v
    {
      if xs[i] == v {
        return i;
      }
      i := i - 1;
    }
    return -1;
  }

  // =====================================================================
  // The visible-index mapping (createContextColumnsLineIndexMapping)

  /** For every token its visible index, the visible length, and the visible
      positions of the first Begin and of the last End (-1 when absent). */
  datatype Mapping = Mapping(actual: seq<int>, length: int, firstColor: int, lastColor: int)

  /** A character takes the next visible index; a Begin is attached to the
      next character and an End to the previous one. */
  function MappingStep(m: Mapping, t: Token): Mapping
  {
    match t
    case Char(_) => m.(actual := m.actual + [m.length], length := m.length + 1)
    case Begin => m.(actual := m.actual + [m.length], firstColor := if m.firstColor < 0 then m.length else m.firstColor)
    case End => m.(actual := m.actual + [m.length - 1], lastColor := m.length)
  }

  function MappingUpTo(line: seq<Token>, n: nat): (m: Mapping)
    requires n <= |line|
    ensures |m.actual| == n
  {
    if n == 0 then Mapping([], 0, -1, -1) else MappingStep(MappingUpTo(line, n - 1), line[n - 1])
  }

  function MappingOf(line: seq<Token>): Mapping
  {
    MappingUpTo(line, |line|)
  }

  /** The visible index of the token at `k`: the number of characters before
      it, one less for an End marker. */
  function ActualIndex(line: seq<Token>, k: nat): int
    requires k < |line|
  {
    VisCount(line[..k]) - (if line[k] == End then 1 else 0)
  }

  /** The visible position of the token at `j`, or -1 when there is none. */
  function ColumnAt(line: seq<Token>, j: int): int
    requires j < |line|
  {
    if j < 0 then -1 else VisCount(line[..j])
  }

  lemma {:induction false} MappingLength(line: seq<Token>, n: nat)
    requires n <= |line|
    ensures |MappingUpTo(line, n).actual| == n
    ensures MappingUpTo(line, n).length == VisCount(line[..n])
  {
    if n > 0 {
      MappingLength(line, n - 1);
      assert line[..n] == line[..n - 1] + [line[n - 1]];
      VisCountSnoc(line[..n - 1], line[n - 1]);
    }
  }

  /** Each token's entry is its visible index. */
  lemma {:induction false} MappingActual(line: seq<Token>, n: nat)
    requires n <= |line|
    ensures forall k :: 0 <= k < n ==> MappingUpTo(line, n).actual[k] == ActualIndex(line, k)
  {
    if n > 0 {
      MappingActual(line, n - 1);
      MappingLength(line, n - 1);
      MappingLength(line, n);
      var prev := MappingUpTo(line, n - 1);
      assert MappingUpTo(line, n).actual == prev.actual + [ActualIndex(line, n - 1)];
    }
  }

  /** The first Begin is recorded at its visible position. */
  lemma {:induction false} MappingFirstColor(line: seq<Token>, n: nat)
    requires n <= |line|
    ensures MappingUpTo(line, n).firstColor == ColumnAt(line, FirstBelow(line, Begin, n))
  {
    if n > 0 {
      MappingFirstColor(line, n - 1);
      MappingLength(line, n - 1);
      if FirstBelow(line, Begin, n - 1) >= 0 {
        assert MappingUpTo(line, n - 1).firstColor >= 0;
      }
    }
  }

  /** The last End is recorded at its visible position. */
  lemma {:induction false} MappingLastColor(line: seq<Token>, n: nat)
    requires n <= |line|
    ensures MappingUpTo(line, n).lastColor == ColumnAt(line, LastBelow(line, End, n))
  {
    if n > 0 {
      MappingLastColor(line, n - 1);
      MappingLength(line, n - 1);
    }
  }

  /** The whole-line mapping: visible length, per-token indexes, and the
      recorded marker positions, which lie within the visible length. */
  lemma MappingOfFacts(line: seq<Token>)
    ensures |MappingOf(line).actual| == |line|
    ensures MappingOf(line).length == VisCount(line)
    ensures forall k :: 0 <= k < |line| ==> MappingOf(line).actual[k] == ActualIndex(line, k)
    ensures MappingOf(line).firstColor == ColumnAt(line, FirstBelow(line, Begin, |line|))
    ensures MappingOf(line).lastColor == ColumnAt(line, LastBelow(line, End, |line|))
    ensures (MappingOf(line).firstColor >= 0 <==> Begin in line) && MappingOf(line).firstColor <= VisCount(line)
    ensures (MappingOf(line).lastColor >= 0 <==> End in line) && MappingOf(line).lastColor <= VisCount(line)
  {
    MappingLength(line, |line|);
    MappingActual(line, |line|);
    MappingFirstColor(line, |line|);
    MappingLastColor(line, |line|);
    assert line[..|line|] == line;
    var f := FirstBelow(line, Begin, |line|);
    var l := LastBelow(line, End, |line|);
    if f >= 0 {
      PrefixVisCount(line, f);
    }
    if l >= 0 {
      PrefixVisCount(line, l);
    }
  }

  lemma PrefixVisCount(line: seq<Token>, j: nat)
    requires j <= |line|
    ensures VisCount(line[..j]) <= VisCount(line)
  {
    VisibleAppend(line[..j], line[j..]);
    assert line[..j] + line[j..] == line;
  }

  /** createContextColumnsLineIndexMapping, computed afresh for the line. */
  method CreateMapping(line: seq<Token>) returns (m: Mapping)
    ensures m == MappingOf(line)
  {
    var actual: seq<int> := [];
    var length := 0;
    var firstColor := -1;
    var lastColor := -1;
    for pos := 0 to |line|
      invariant MappingUpTo(line, pos) == Mapping(actual, length, firstColor, lastColor)
    {
      match line[pos]
      case Char(_) =>
        actual := actual + [length];
        length := length + 1;
      case Begin =>
        actual := actual + [length];
        if firstColor < 0 {
          firstColor := length;
        }
      case End =>
        actual := actual + [length - 1];
        lastColor := length;
    }
    m := Mapping(actual, length, firstColor, lastColor);
  }

  // =====================================================================
  // The context-column window (calculateContextColumns)

  /** The visible columns [begin, end) that are printed. */
  datatype Window = Window(begin: int, end: int)

  /** Widen [lo, hi) to `width` columns around its middle, shifted back
      inside [0, length). */
  function ExpandWindow(lo: int, hi: int, width: int, length: int): Window
  {
    if hi - lo < width then
      var adjust := (width - (hi - lo)) / 2;
      var b := lo - adjust;
      if b < 0 then Window(0, width)
      else if b + width > length then Window(if length - width < 0 then 0 else length - width, length)
      else Window(b, b + width)
    else Window(lo, hi)
  }

  /** What calculateContextColumns leaves in the window for a line; `prev` is
      the window left by earlier lines, kept when the width is 0. A missing
      marker where decorations are expected is a panic. */
  function ContextColumns(line: seq<Token>, width: int, needMatchDecorations: bool, prev: Window): Result<Window>
  {
    if width == 0 then Ok(prev)
    else if |line| <= width then Ok(Window(0, width))
    else
      var m := MappingOf(line);
      if m.length <= width then Ok(Window(0, width))
      else if m.firstColor >= 0 && m.lastColor >= 0 && m.lastColor - m.firstColor >= width then
        Ok(Window(m.firstColor, m.lastColor))
      else if needMatchDecorations && m.firstColor == -1 then Fail("Begin color missing")
      else if needMatchDecorations && m.lastColor == -1 then Fail("End color missing")
      else if needMatchDecorations then Ok(ExpandWindow(m.firstColor, m.lastColor, width, m.length))
      else Ok(ExpandWindow(0, if |line| > width then width else |line|, width, m.length))
  }

  /** calculateContextColumns. */
  method CalculateContextColumns(line: seq<Token>, width: int, needMatchDecorations: bool, prev: Window)
    returns (r: Result<Window>)
    ensures r == ContextColumns(line, width, needMatchDecorations, prev)
  {
    if width == 0 {
      return Ok(prev);
    }
    if |line| <= width {
      return Ok(Window(0, width));
    }
    var m := CreateMapping(line);
    if m.length <= width {
      return Ok(Window(0, width));
    }
    if m.firstColor >= 0 && m.lastColor >= 0 && m.lastColor - m.firstColor >= width {
      return Ok(Window(m.firstColor, m.lastColor));
    }
    var minIndex, maxIndex;
    if needMatchDecorations {
      minIndex := m.firstColor;
      if minIndex == -1 {
        return Fail("Begin color missing");
      }
      maxIndex := m.lastColor;
      if maxIndex == -1 {
        return Fail("End color missing");
      }
    } else {
      minIndex := 0;
      maxIndex := |line|;
      if maxIndex > width {
        maxIndex := width;
      }
    }
    var contextLength := maxIndex - minIndex;
    if contextLength < width {
      var adjust := (width - contextLength) / 2;
      minIndex := minIndex - adjust;
      maxIndex := minIndex + width;
      if minIndex < 0 {
        minIndex := 0;
        maxIndex := width;
      } else if maxIndex > m.length {
        maxIndex := m.length;
        minIndex := maxIndex - width;
        if minIndex < 0 {
          minIndex := 0;
        }
      }
    }
    return Ok(Window(minIndex, maxIndex));
  }

  /** A line that fits is shown from column 0 to the width. */
  lemma ContextColumnsShort(line: seq<Token>, width: int, needMatchDecorations: bool, prev: Window)
    requires width > 0 && VisCount(line) <= width
    ensures ContextColumns(line, width, needMatchDecorations, prev) == Ok(Window(0, width))
  {
    MappingOfFacts(line);
  }

  /** A highlighted extent at least as wide as the window becomes the window. */
  lemma ContextColumnsExtent(line: seq<Token>, width: int, needMatchDecorations: bool, prev: Window)
    requires width > 0 && VisCount(line) > width && Begin in line && End in line
    requires MappingOf(line).lastColor - MappingOf(line).firstColor >= width
    ensures ContextColumns(line, width, needMatchDecorations, prev)
      == Ok(Window(MappingOf(line).firstColor, MappingOf(line).lastColor))
  {
    MappingOfFacts(line);
    assert |line| >= VisCount(line);
  }

  /** Any other window of a long line is exactly `width` columns inside the
      visible line. */
  lemma ContextColumnsFits(line: seq<Token>, width: int, needMatchDecorations: bool, prev: Window)
    requires width > 0 && VisCount(line) > width
    requires ContextColumns(line, width, needMatchDecorations, prev).Ok?
    requires !(Begin in line && End in line && MappingOf(line).lastColor - MappingOf(line).firstColor >= width)
    ensures var w := ContextColumns(line, width, needMatchDecorations, prev).value;
      0 <= w.begin && w.end <= VisCount(line) && w.end - w.begin == width
  {
    MappingOfFacts(line);
    assert |line| >= VisCount(line);
  }

  /** When decorations are expected, the window covers the highlighted extent
      from the first Begin to the last End. */
  lemma ContextColumnsCoverMatch(line: seq<Token>, width: int, prev: Window)
    requires width > 0 && Begin in line && End in line
    requires MappingOf(line).firstColor <= MappingOf(line).lastColor
    ensures ContextColumns(line, width, true, prev).Ok?
    ensures var w := ContextColumns(line, width, true, prev).value;
      w.begin <= MappingOf(line).firstColor && MappingOf(line).lastColor <= w.end
  {
    MappingOfFacts(line);
    assert |line| >= VisCount(line);
  }

  /** The window panics exactly when decorations are expected on a long line
      with a marker missing; lines without markers always get the first
      `width` columns. */
  lemma ContextColumnsFailure(line: seq<Token>, width: int, needMatchDecorations: bool, prev: Window)
    requires width > 0
    ensures ContextColumns(line, width, needMatchDecorations, prev).Fail?
      <==> needMatchDecorations && VisCount(line) > width && (Begin !in line || End !in line)
    ensures !needMatchDecorations && Begin !in line ==> ContextColumns(line, width, false, prev) == Ok(Window(0, width))
  {
    MappingOfFacts(line);
    assert |line| >= VisCount(line);
  }

  /** The older calculateContextColumns of ff/findfile.go: no extent case and no
      fallback for undecorated lines, so it needs both markers on every long line. */
  function ContextColumnsOld(line: seq<Token>, width: int, prev: Window): Result<Window>
  {
    if width == 0 then Ok(prev)
    else if |line| <= width then Ok(Window(0, width))
    else
      var m := MappingOf(line);
      if m.length <= width then Ok(Window(0, width))
      else if m.firstColor == -1 then Fail("Begin color missing")
      else if m.lastColor == -1 then Fail("End color missing")
      else Ok(ExpandWindow(m.firstColor, m.lastColor, width, m.length))
  }

  /** A long undecorated line (an inverted match, say) panics in the older
      version and gets the first `width` columns in the newer one. */
  lemma OldContextColumnsPanics()
    ensures ContextColumnsOld(Chars("abcdef"), 4, Window(0, 0)).Fail?
    ensures ContextColumns(Chars("abcdef"), 4, false, Window(0, 0)) == Ok(Window(0, 4))
  {
    var line := Chars("abcdef");
    MappingOfFacts(line);
    VisCountAllChars(line);
  }

  // =====================================================================
  // Truncation to the window (truncateToContextColumns)

  /** contextColumnTruncationMark. */
  function TruncationMark(): (r: seq<Token>)
    ensures |r| == 3 && VisCount(r) == 3
  {
    VisCountAllChars(Chars("..."));
    Chars("...")
  }

  /** What truncateToContextColumns returns: the tokens of the window, with
      "..." where the line was cut; a window the mapping cannot locate is a
      panic. */
  function Truncated(line: seq<Token>, width: int, w: Window): Result<seq<Token>>
  {
    if width == 0 then Ok(line)
    else if |line| == 0 then Ok([])
    else if |line| <= w.begin then Ok(TruncationMark())
    else
      var m := MappingOf(line);
      if m.length <= w.begin then Ok(TruncationMark())
      else if w.end >= m.length && w.begin == 0 then Ok(line)
      else
        var needEndDots := w.end < m.length;
        var bi := FirstBelow(m.actual, w.begin, |m.actual|);
        var ei := if needEndDots then LastBelow(m.actual, w.end, |m.actual|) else |line|;
        if bi == -1 then Fail("First fake index missing")
        else if ei == -1 then Fail("Last fake index missing")
        else if !(0 <= bi <= ei <= |line|) then Fail("slice bounds out of range")
        else Ok((if w.begin > 0 then TruncationMark() else []) + line[bi..ei]
                + (if needEndDots then TruncationMark() else []))
  }

  /** truncateToContextColumns. */
  method TruncateToContextColumns(line: seq<Token>, width: int, w: Window) returns (r: Result<seq<Token>>)
    ensures r == Truncated(line, width, w)
  {
    if width == 0 {
      return Ok(line);
    }
    if |line| == 0 {
      return Ok([]);
    }
    if |line| <= w.begin {
      return Ok(TruncationMark());
    }
    var m := CreateMapping(line);
    if m.length <= w.begin {
      return Ok(TruncationMark());
    }
    var needEndDots := true;
    var actualEnd := w.end;
    if actualEnd >= m.length {
      actualEnd := m.length;
      needEndDots := false;
      if w.begin == 0 {
        return Ok(line);
      }
    }
    var beginIndex := FindFirstIndex(m.actual, w.begin);
    if beginIndex == -1 {
      return Fail("First fake index missing");
    }
    var endIndex := -1;
    if actualEnd >= m.length {
      endIndex := |line|;
    } else {
      endIndex := FindLastIndex(m.actual, actualEnd);
    }
    if endIndex == -1 {
      return Fail("Last fake index missing");
    }
    if !(0 <= beginIndex <= endIndex <= |line|) {
      return Fail("slice bounds out of range");
    }
    var front := if w.begin > 0 then TruncationMark() else [];
    var back := if needEndDots then TruncationMark() else [];
    return Ok(front + line[beginIndex..endIndex] + back);
  }

  /** A window starting at column 0 that reaches the end of the visible line
      keeps the line as it is; one starting past it leaves only "...". */
  lemma TruncatedWhole(line: seq<Token>, width: int, w: Window)
    requires width != 0 && |line| > 0
    ensures w.begin == 0 < VisCount(line) <= w.end ==> Truncated(line, width, w) == Ok(line)
    ensures VisCount(line) <= w.begin ==> Truncated(line, width, w) == Ok(TruncationMark())
  {
    MappingOfFacts(line);
    assert |line| >= VisCount(line);
  }

  /** Otherwise a successful truncation is a contiguous run of the line, with
      "..." in front exactly when the window starts after column 0 and "..."
      behind exactly when it stops before the end of the visible line. */
  lemma TruncatedShape(line: seq<Token>, width: int, w: Window)
    requires width != 0 && 0 <= w.begin < VisCount(line) && !(w.begin == 0 && VisCount(line) <= w.end)
    requires Truncated(line, width, w).Ok?
    ensures exists bi, ei :: (0 <= bi <= ei <= |line| &&
      Truncated(line, width, w).value
        == (if w.begin > 0 then TruncationMark() else []) + line[bi..ei]
           + (if w.end < VisCount(line) then TruncationMark() else []))
  {
    MappingOfFacts(line);
    assert |line| >= VisCount(line);
    var m := MappingOf(line);
    var bi := FirstBelow(m.actual, w.begin, |m.actual|);
    var ei := if w.end < m.length then LastBelow(m.actual, w.end, |m.actual|) else |line|;
    assert 0 <= bi <= ei <= |line|;
  }

  /** On a line without markers, visible and token indexes coincide, so the
      window [begin, end) is cut out exactly and never panics. */
  lemma TruncatedPlain(line: seq<Token>, width: int, w: Window)
    requires forall k :: 0 <= k < |line| ==> line[k].Char?
    requires width != 0 && 0 <= w.begin < |line| && w.begin <= w.end
    ensures Truncated(line, width, w)
      == Ok((if w.begin > 0 then TruncationMark() else []) + line[w.begin..if w.end < |line| then w.end else |line|]
            + (if w.end < |line| then TruncationMark() else []))
  {
    MappingOfFacts(line);
    VisCountAllChars(line);
    var m := MappingOf(line);
    forall k | 0 <= k < |line|
      ensures m.actual[k] == k
    {
      VisCountAllChars(line[..k]);
    }
    assert m.actual[w.begin] == w.begin;
    var bi := FirstBelow(m.actual, w.begin, |m.actual|);
    assert bi == w.begin by {
      if 0 <= bi < w.begin {
        assert m.actual[bi] == bi;
      }
    }
    if w.end < |line| {
      assert m.actual[w.end] == w.end;
      var ei := LastBelow(m.actual, w.end, |m.actual|);
      assert ei == w.end;
    }
    if w.end >= |line| && w.begin == 0 {
      assert [] + line[0..|line|] + [] == line;
    } else if w.end >= |line| {
      assert Truncated(line, width, w) == Ok(TruncationMark() + line[w.begin..|line|] + []);
    } else {
      assert Truncated(line, width, w)
        == Ok((if w.begin > 0 then TruncationMark() else []) + line[w.begin..w.end] + TruncationMark());
    }
  }

  // =====================================================================
  // One output line (transformSingleOutputLine)

  datatype LineOptions = LineOptions(
    tabSpacing: int, showTabs: bool, showControlChars: bool,
    contextColumns: int, needMatchDecorations: bool)

  /** The transformed line and the window left for the following lines. */
  datatype Transformed = Transformed(line: seq<Token>, window: Window)

  /** Tabs first, then control characters, then (for a matching line) the
      window, then the truncation. */
  function SingleOutputLine(line: seq<Token>, needContextColumns: bool, o: LineOptions, w: Window): Result<Transformed>
  {
    var t := ReplaceControl(TransformTabs(line, o.tabSpacing, o.showTabs), o.showControlChars);
    var cw := if needContextColumns then ContextColumns(t, o.contextColumns, o.needMatchDecorations, w) else Ok(w);
    if cw.Fail? then Fail(cw.message)
    else
      var out := Truncated(t, o.contextColumns, cw.value);
      if out.Fail? then Fail(out.message) else Ok(Transformed(out.value, cw.value))
  }

  /** transformSingleOutputLine. */
  method TransformSingleOutputLine(line: seq<Token>, needContextColumns: bool, o: LineOptions, w: Window)
    returns (r: Result<Transformed>)
    ensures r == SingleOutputLine(line, needContextColumns, o, w)
  {
    var t := TransformTabsMethod(line, o.tabSpacing, o.showTabs);
    t := ReplaceControlCharacters(t, o.showControlChars);
    var window := w;
    if needContextColumns {
      var cw := CalculateContextColumns(t, o.contextColumns, o.needMatchDecorations, w);
      if cw.Fail? {
        return Fail(cw.message);
      }
      window := cw.value;
    }
    var out := TruncateToContextColumns(t, o.contextColumns, window);
    if out.Fail? {
      return Fail(out.message);
    }
    return Ok(Transformed(out.value, window));
  }

  /** Without context columns a line only has its tabs expanded and its
      control characters handled: the result never holds a tab, and a line
      with neither comes out unchanged. */
  lemma SingleOutputLineNoColumns(line: seq<Token>, needContextColumns: bool, o: LineOptions, w: Window)
    requires o.contextColumns == 0
    ensures SingleOutputLine(line, needContextColumns, o, w)
      == Ok(Transformed(ReplaceControl(TransformTabs(line, o.tabSpacing, o.showTabs), o.showControlChars), w))
    ensures Tab !in SingleOutputLine(line, needContextColumns, o, w).value.line
    ensures Tab !in line && !HasControlToken(line) ==> SingleOutputLine(line, needContextColumns, o, w).value.line == line
  {
    TransformTabsProperties(line, o.tabSpacing, o.showTabs);
  }
}
