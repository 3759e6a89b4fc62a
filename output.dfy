/** Assembling what is printed for a match (ff/format.go): the matching line
    with its pre- and post-context lines, and the one-line report for a
    matching file or directory name. */
module Output {
  import opened Wrappers
  import opened Util
  import opened Matching
  import opened Format
  import opened Decorate
  import opened Transform
  import opened ContextIO

  /** The window invariant: it starts at or after column 0 and ends no
      earlier than it starts. */
  predicate WindowOk(w: Window)
  {
    0 <= w.begin <= w.end
  }

  /** calculateContextColumns keeps the window well formed. */
  lemma ContextColumnsWindowOk(line: seq<Token>, width: int, needMatchDecorations: bool, prev: Window)
    requires WindowOk(prev) && width >= 0
    requires ContextColumns(line, width, needMatchDecorations, prev).Ok?
    ensures WindowOk(ContextColumns(line, width, needMatchDecorations, prev).value)
  {
    MappingOfFacts(line);
  }

  lemma SingleOutputLineWindowOk(line: seq<Token>, needContextColumns: bool, o: LineOptions, w: Window)
    requires WindowOk(w) && o.contextColumns >= 0
    requires SingleOutputLine(line, needContextColumns, o, w).Ok?
    ensures WindowOk(SingleOutputLine(line, needContextColumns, o, w).value.window)
  {
    var t := ReplaceControl(TransformTabs(line, o.tabSpacing, o.showTabs), o.showControlChars);
    if needContextColumns {
      ContextColumnsWindowOk(t, o.contextColumns, o.needMatchDecorations, w);
    }
  }

  lemma {:induction false} NoMarkersAllChars(ts: seq<Token>)
    requires Markers(ts) == []
    ensures forall k :: 0 <= k < |ts| ==> ts[k].Char?
  {
    if ts != [] {
      NoMarkersAllChars(ts[..|ts| - 1]);
    }
  }

  /** A context line is plain text, so transforming it never panics and
      leaves the window alone. */
  lemma PlainLineTransforms(text: string, o: LineOptions, w: Window)
    requires WindowOk(w)
    ensures SingleOutputLine(Chars(text), false, o, w).Ok?
    ensures SingleOutputLine(Chars(text), false, o, w).value.window == w
  {
    var line := Chars(text);
    MarkersAllChars(line);
    var tabs := TransformTabs(line, o.tabSpacing, o.showTabs);
    TransformTabsProperties(line, o.tabSpacing, o.showTabs);
    var t := ReplaceControl(tabs, o.showControlChars);
    assert Markers(t) == [];
    NoMarkersAllChars(t);
    if o.contextColumns != 0 && |t| > w.begin {
      TruncatedPlain(t, o.contextColumns, w);
    }
  }

  /** A context line as printed: its text through the single-line transform,
      with the window of the matching line. */
  function ContextText(text: string, o: LineOptions, w: Window): seq<Token>
    requires WindowOk(w)
  {
    PlainLineTransforms(text, o, w);
    SingleOutputLine(Chars(text), false, o, w).value.line
  }

  /** The `N-j:-j: ` / `N+j:+j: ` prefix of a context line. */
  function ContextPrefix(lineNumber: int, j: int, before: bool): string
  {
    if before then Decimal(lineNumber - j) + ":-" + Decimal(j) + ": "
    else Decimal(lineNumber + j) + ":+" + Decimal(j) + ": "
  }

  /** One printed context line. */
  function ContextEntry(lineNumber: int, j: int, before: bool, text: string, o: LineOptions, w: Window, newLine: string): seq<Token>
    requires WindowOk(w)
  {
    Chars(ContextPrefix(lineNumber, j, before)) + ContextText(text, o, w) + Chars(newLine)
  }

  /** One context line as the loops of transformOutputLine append it. */
  method WriteContextEntry(lineNumber: int, j: int, before: bool, text: string, o: LineOptions, w: Window, newLine: string)
    returns (e: seq<Token>)
    requires WindowOk(w)
    ensures e == ContextEntry(lineNumber, j, before, text, o, w, newLine)
  {
    var t := TransformSingleOutputLine(Chars(text), false, o, w);
    PlainLineTransforms(text, o, w);
    e := Chars(ContextPrefix(lineNumber, j, before)) + t.value.line + Chars(newLine);
  }

  /** Every slot of a context ring rendered as a context line; slot j - 1
      holds delta -j (before) or +j (after). */
  function Entries(slots: seq<ContextLine>, before: bool, lineNumber: int, o: LineOptions, w: Window, newLine: string): (r: seq<seq<Token>>)
    requires WindowOk(w)
    ensures |r| == |slots|
  {
    if slots == [] then []
    else
      Entries(slots[..|slots| - 1], before, lineNumber, o, w, newLine)
      + [ContextEntry(lineNumber, |slots|, before, slots[|slots| - 1].text, o, w, newLine)]
  }

  lemma {:induction false} EntriesAt(slots: seq<ContextLine>, before: bool, lineNumber: int, o: LineOptions, w: Window, newLine: string, j: nat)
    requires WindowOk(w) && j < |slots|
    ensures Entries(slots, before, lineNumber, o, w, newLine)[j] == ContextEntry(lineNumber, j + 1, before, slots[j].text, o, w, newLine)
  {
    var init := slots[..|slots| - 1];
    if j < |slots| - 1 {
      EntriesAt(init, before, lineNumber, o, w, newLine, j);
      assert init[j] == slots[j];
    }
  }

  /** The rendered slots at the given deltas, in the order given. */
  function RenderContext(deltas: seq<int>, entries: seq<seq<Token>>): seq<Token>
    requires forall k :: 0 <= k < |deltas| ==> 1 <= deltas[k] <= |entries|
  {
    if deltas == [] then []
    else RenderContext(deltas[..|deltas| - 1], entries) + entries[deltas[|deltas| - 1] - 1]
  }

  lemma RenderContextSnoc(deltas: seq<int>, d: int, entries: seq<seq<Token>>)
    requires 1 <= d <= |entries|
    requires forall k :: 0 <= k < |deltas| ==> 1 <= deltas[k] <= |entries|
    ensures RenderContext(deltas + [d], entries) == RenderContext(deltas, entries) + entries[d - 1]
  {
    assert (deltas + [d])[..|deltas|] == deltas;
  }

  /** The pre-context deltas shown after the first `k` steps of the loop
      that counts j down from n: those whose slot is valid. */
  function PreShown(pre: seq<ContextLine>, n: nat, k: nat): (r: seq<int>)
    requires k <= n <= |pre|
    ensures forall i :: 0 <= i < |r| ==> n - k + 1 <= r[i] <= n
  {
    if k == 0 then []
    else PreShown(pre, n, k - 1) + (if pre[n - k].valid then [n - k + 1] else [])
  }

  lemma PreShownStep(pre: seq<ContextLine>, n: nat, k: nat)
    requires 0 < k <= n <= |pre|
    ensures PreShown(pre, n, k) == PreShown(pre, n, k - 1) + (if pre[n - k].valid then [n - k + 1] else [])
  {
  }

  /** The pre-context shows exactly the valid slots, oldest (largest delta)
      first. */
  lemma {:induction false} PreShownFacts(pre: seq<ContextLine>, n: nat, k: nat)
    requires k <= n <= |pre|
    ensures forall j :: j in PreShown(pre, n, k) <==> n - k + 1 <= j <= n && pre[j - 1].valid
    ensures forall a, b :: 0 <= a < b < |PreShown(pre, n, k)| ==> PreShown(pre, n, k)[a] > PreShown(pre, n, k)[b]
  {
    if k > 0 {
      PreShownFacts(pre, n, k - 1);
    }
  }

  /** The number of leading valid post-context slots among the first `n`. */
  function LeadingValid(post: seq<ContextLine>, n: nat): (r: nat)
    requires n <= |post|
    ensures r <= n
    ensures forall i :: 0 <= i < r ==> post[i].valid
    ensures r < n ==> !post[r].valid
  {
    if n == 0 then 0
    else
      var r := LeadingValid(post, n - 1);
      if r < n - 1 then r else if post[n - 1].valid then n else n - 1
  }

  /** Scanning up from 0, the first invalid line is where the leading run stops. */
  lemma LeadingValidAt(post: seq<ContextLine>, n: nat, i: nat)
    requires n <= |post| && i < n && i <= LeadingValid(post, n)
    ensures post[i].valid <==> i < LeadingValid(post, n)
  {
  }

  /** Deltas +1 … +k. */
  function UpTo(k: nat): (r: seq<int>)
    ensures |r| == k && forall i :: 0 <= i < k ==> r[i] == i + 1
  {
    seq(k, i => i + 1)
  }

  lemma UpToSnoc(k: nat)
    ensures UpTo(k + 1) == UpTo(k) + [k + 1]
  {
  }

  /** The pre-context lines appended by the first `k` iterations of the
      loop that counts the slot index down from n - 1. */
  function PreBlock(pre: seq<ContextLine>, entries: seq<seq<Token>>, n: nat, k: nat): seq<Token>
    requires k <= n <= |pre| == |entries|
  {
    if k == 0 then []
    else PreBlock(pre, entries, n, k - 1) + (if pre[n - k].valid then entries[n - k] else [])
  }

  lemma PreBlockStep(pre: seq<ContextLine>, entries: seq<seq<Token>>, n: nat, k: nat, i: int)
    requires k < n <= |pre| == |entries| && i == n - 1 - k
    ensures PreBlock(pre, entries, n, k + 1) == PreBlock(pre, entries, n, k) + (if pre[i].valid then entries[i] else [])
  {
  }

  /** The post-context lines appended by the first `k` iterations of the
      loop that counts the delta up from 1. */
  function PostBlock(entries: seq<seq<Token>>, k: nat): seq<Token>
    requires k <= |entries|
  {
    if k == 0 then [] else PostBlock(entries, k - 1) + entries[k - 1]
  }

  /** The pre-context block is the valid slots rendered in PreShown order. */
  lemma {:induction false} PreBlockShows(pre: seq<ContextLine>, entries: seq<seq<Token>>, n: nat, k: nat)
    requires k <= n <= |pre| == |entries|
    ensures PreBlock(pre, entries, n, k) == RenderContext(PreShown(pre, n, k), entries)
  {
    if k > 0 {
      PreBlockShows(pre, entries, n, k - 1);
      PreShownStep(pre, n, k);
      var shown := PreShown(pre, n, k - 1);
      if pre[n - k].valid {
        RenderContextSnoc(shown, n - k + 1, entries);
      } else {
        assert shown + [] == shown;
      }
    }
  }

  /** The post-context block is the slots +1 … +k rendered in order. */
  lemma {:induction false} PostBlockShows(entries: seq<seq<Token>>, k: nat)
    requires k <= |entries|
    ensures PostBlock(entries, k) == RenderContext(UpTo(k), entries)
  {
    if k > 0 {
      PostBlockShows(entries, k - 1);
      UpToSnoc(k - 1);
      RenderContextSnoc(UpTo(k - 1), k, entries);
    }
  }

  /** What transformOutputLine builds from the matching line (already
      transformed) and the context slots: valid pre-context lines oldest
      first, the matching line, then post-context lines nearest first up to
      the first empty slot. */
  function ContextBlock(pre: seq<ContextLine>, post: seq<ContextLine>, n: nat, lineNumber: int,
                        matchLine: seq<Token>, o: LineOptions, w: Window, newLine: string): seq<Token>
    requires |pre| == n && |post| == n && WindowOk(w)
  {
    PreBlock(pre, Entries(pre, true, lineNumber, o, w, newLine), n, n)
      + Chars(Decimal(lineNumber) + ": 0: ") + matchLine + Chars(newLine)
      + PostBlock(Entries(post, false, lineNumber, o, w, newLine), LeadingValid(post, n))
  }

  lemma ContextBlockParts(pre: seq<ContextLine>, post: seq<ContextLine>, n: nat, lineNumber: int,
                          matchLine: seq<Token>, o: LineOptions, w: Window, newLine: string)
    requires |pre| == n && |post| == n && WindowOk(w)
    ensures ContextBlock(pre, post, n, lineNumber, matchLine, o, w, newLine)
         == PreBlock(pre, Entries(pre, true, lineNumber, o, w, newLine), n, n)
            + Chars(Decimal(lineNumber) + ": 0: ") + matchLine + Chars(newLine)
            + PostBlock(Entries(post, false, lineNumber, o, w, newLine), LeadingValid(post, n))
  {
  }

  /** transformOutputLine: the matching line is transformed (computing the
      window); with context lines it is wrapped in its context block. */
  function OutputLine(line: seq<Token>, n: nat, lineNumber: int, pre: seq<ContextLine>, post: seq<ContextLine>,
                      o: LineOptions, w: Window, newLine: string): Result<Transformed>
    requires |pre| == n && |post| == n && WindowOk(w) && o.contextColumns >= 0
  {
    var m := SingleOutputLine(line, true, o, w);
    if m.Fail? || n == 0 then m
    else
      SingleOutputLineWindowOk(line, true, o, w);
      Ok(Transformed(ContextBlock(pre, post, n, lineNumber, m.value.line, o, m.value.window, newLine), m.value.window))
  }

  /** The window transformOutputLine leaves stays well formed. */
  lemma OutputLineWindowOk(line: seq<Token>, n: nat, lineNumber: int, pre: seq<ContextLine>, post: seq<ContextLine>,
                           o: LineOptions, w: Window, newLine: string)
    requires |pre| == n && |post| == n && WindowOk(w) && o.contextColumns >= 0
    requires OutputLine(line, n, lineNumber, pre, post, o, w, newLine).Ok?
    ensures WindowOk(OutputLine(line, n, lineNumber, pre, post, o, w, newLine).value.window)
  {
    SingleOutputLineWindowOk(line, true, o, w);
  }

  /** transformOutputLine over the context rings: the pre slots are read
      before, the post slots after the read-ahead. */
  method TransformOutputLine(line: seq<Token>, lineNumber: int, reader: ContextReader,
                             o: LineOptions, w: Window, newLine: string) returns (r: Result<Transformed>)
    requires reader.Valid() && !reader.pending && WindowOk(w) && o.contextColumns >= 0
    modifies reader, reader.post, reader.scanner
    ensures reader.Valid() && !reader.pending
    ensures r == OutputLine(line, reader.n, lineNumber, old(reader.PreLines()), reader.PostLines(), o, w, newLine)
    ensures reader.consumed == old(reader.consumed) && reader.stream == old(reader.stream)
    ensures reader.pushed == old(reader.pushed) && old(reader.ahead) <= reader.ahead
    ensures reader.scanner == old(reader.scanner)
  {
    hide SingleOutputLine, ContextBlock;
    ghost var pre := reader.PreLines();
    var m := TransformSingleOutputLine(line, true, o, w);
    if m.Fail? || reader.n == 0 {
      return m;
    }
    SingleOutputLineWindowOk(line, true, o, w);
    var out := WriteContextBlock(lineNumber, reader, m.value.line, o, m.value.window, newLine);
    r := Ok(Transformed(out, m.value.window));
    assert r == OutputLine(line, reader.n, lineNumber, pre, reader.PostLines(), o, w, newLine);
  }

  /** The context part of transformOutputLine: pre-context, the matching
      line, the read-ahead, then post-context. */
  method WriteContextBlock(lineNumber: int, reader: ContextReader, matchLine: seq<Token>,
                           o: LineOptions, w: Window, newLine: string) returns (out: seq<Token>)
    requires reader.Valid() && !reader.pending && WindowOk(w)
    modifies reader, reader.post, reader.scanner
    ensures reader.Valid() && !reader.pending
    ensures out == ContextBlock(old(reader.PreLines()), reader.PostLines(), reader.n, lineNumber, matchLine, o, w, newLine)
    ensures reader.consumed == old(reader.consumed) && reader.stream == old(reader.stream)
    ensures reader.pushed == old(reader.pushed) && old(reader.ahead) <= reader.ahead
    ensures reader.scanner == old(reader.scanner)
  {
    var n := reader.n;
    ghost var pre := reader.PreLines();
    var before := WritePreContext(lineNumber, reader, pre, o, w, newLine);
    assert reader.PreLines() == pre;
    var after := FillAndWritePostContext(lineNumber, reader, o, w, newLine);
    out := before + Chars(Decimal(lineNumber) + ": 0: ") + matchLine + Chars(newLine) + after;
    ContextBlockParts(pre, reader.PostLines(), n, lineNumber, matchLine, o, w, newLine);
  }

  /** The read-ahead of post-context lines followed by the post-context
      loop. */
  method FillAndWritePostContext(lineNumber: int, reader: ContextReader, o: LineOptions, w: Window, newLine: string)
    returns (out: seq<Token>)
    requires reader.Valid() && !reader.pending && WindowOk(w)
    modifies reader, reader.post, reader.scanner
    ensures reader.Valid() && !reader.pending && reader.PreLines() == old(reader.PreLines())
    ensures out == PostBlock(Entries(reader.PostLines(), false, lineNumber, o, w, newLine), LeadingValid(reader.PostLines(), reader.n))
    ensures reader.consumed == old(reader.consumed) && reader.stream == old(reader.stream)
    ensures reader.pushed == old(reader.pushed) && old(reader.ahead) <= reader.ahead
    ensures reader.scanner == old(reader.scanner)
  {
    hide PostBlock, Entries, LeadingValid;
    ghost var pre := reader.PreLines();
    reader.FillPostContextLines();
    assert reader.PreLines() == pre;
    ghost var post := reader.PostLines();
    out := WritePostContext(lineNumber, reader, post, o, w, newLine);
    assert reader.PostLines() == post;
  }

  /** The pre-context loop of transformOutputLine. */
  method WritePreContext(lineNumber: int, reader: ContextReader, ghost pre: seq<ContextLine>, o: LineOptions, w: Window, newLine: string)
    returns (out: seq<Token>)
    requires reader.RingsValid() && reader.PreRing() && WindowOk(w) && pre == reader.PreLines()
    ensures out == PreBlock(pre, Entries(pre, true, lineNumber, o, w, newLine), reader.n, reader.n)
  {
    var n := reader.n;
    ghost var entries := Entries(pre, true, lineNumber, o, w, newLine);
    out := [];
    var i := n - 1;
    ghost var k := 0;
    while i >= 0
      invariant -1 <= i < n && k == n - 1 - i
      invariant out == PreBlock(pre, entries, n, k)
    {
      var c := ReadPreLine(reader, i, pre);
      out := WritePreContextLine(out, i, k, lineNumber, c, n, pre, entries, o, w, newLine);
      i := i - 1;
      k := k + 1;
    }
    assert k == n;
  }

  /** One iteration of the pre-context loop: slot delta -(i+1) is appended
      when it holds a line. */
  /** The pre-context line at delta -(i + 1). */
  method ReadPreLine(reader: ContextReader, i: int, ghost pre: seq<ContextLine>) returns (c: ContextLine)
    requires reader.RingsValid() && reader.PreRing() && pre == reader.PreLines() && 0 <= i < reader.n
    ensures c == pre[i]
  {
    var r := reader.GetContextLineByDelta(-i - 1);
    reader.PreLinesByDelta(i);
    c := r.value;
  }

  method WritePreContextLine(out: seq<Token>, i: int, ghost k: nat, lineNumber: int, c: ContextLine,
                             ghost n: nat, ghost pre: seq<ContextLine>, ghost entries: seq<seq<Token>>,
                             o: LineOptions, w: Window, newLine: string)
    returns (r: seq<Token>)
    requires WindowOk(w) && |pre| == n && entries == Entries(pre, true, lineNumber, o, w, newLine)
    requires 0 <= i < n && k == n - 1 - i && c == pre[i]
    requires out == PreBlock(pre, entries, n, k)
    ensures r == PreBlock(pre, entries, n, k + 1)
  {
    EntriesAt(pre, true, lineNumber, o, w, newLine, i);
    PreBlockStep(pre, entries, n, k, i);
    if c.valid {
      var j := i + 1;
      var e := WriteContextEntry(lineNumber, j, true, c.text, o, w, newLine);
      r := out + e;
    } else {
      r := out;
    }
  }


  /** The post-context loop of transformOutputLine: nearest first, up to the
      first empty slot. */
  /** The post-context line at delta i + 1. */
  method ReadPostLine(reader: ContextReader, i: int, ghost post: seq<ContextLine>) returns (c: ContextLine)
    requires reader.RingsValid() && reader.PostRing() && post == reader.PostLines() && 0 <= i < reader.n
    ensures c == post[i]
  {
    var r := reader.GetContextLineByDelta(i + 1);
    reader.PostLinesByDelta(i);
    c := r.value;
  }

  method WritePostContext(lineNumber: int, reader: ContextReader, ghost post: seq<ContextLine>, o: LineOptions, w: Window, newLine: string)
    returns (out: seq<Token>)
    requires reader.RingsValid() && reader.PostRing() && WindowOk(w) && post == reader.PostLines()
    ensures out == PostBlock(Entries(post, false, lineNumber, o, w, newLine), LeadingValid(post, reader.n))
  {
    hide ContextEntry, Entries, LeadingValid;
    var n := reader.n;
    ghost var entries := Entries(post, false, lineNumber, o, w, newLine);
    ghost var shown := LeadingValid(post, n);
    out := [];
    var i := 0;
    while i < n
      invariant 0 <= i <= shown
      invariant out == PostBlock(entries, i)
    {
      var c := ReadPostLine(reader, i, post);
      LeadingValidAt(post, n, i);
      if !c.valid {
        break;
      }
      EntriesAt(post, false, lineNumber, o, w, newLine, i);
      var j := i + 1;
      var e := WriteContextEntry(lineNumber, j, false, c.text, o, w, newLine);
      out := out + e;
      i := j;
    }
    assert i == shown;
  }

  /** Without context lines the output is the transformed matching line. */
  lemma OutputLineWithoutContext(line: seq<Token>, lineNumber: int, o: LineOptions, w: Window, newLine: string)
    requires WindowOk(w) && o.contextColumns >= 0
    ensures OutputLine(line, 0, lineNumber, [], [], o, w, newLine) == SingleOutputLine(line, true, o, w)
  {
  }

  /** With context lines and no context columns, each context line is its
      text with tabs expanded and control characters handled. */
  lemma ContextTextNoColumns(text: string, o: LineOptions, w: Window)
    requires WindowOk(w) && o.contextColumns == 0
    ensures ContextText(text, o, w) == ReplaceControl(TransformTabs(Chars(text), o.tabSpacing, o.showTabs), o.showControlChars)
  {
  }

  // =====================================================================
  // writePathNameOutputLine

  /** fmt's `%15v` on a string: padded on the left to 15 characters. */
  function PadLeft(s: string, width: nat): (r: string)
    ensures |r| == if |s| < width then width else |s|
    ensures r[|r| - |s|..] == s
    ensures forall i :: 0 <= i < |r| - |s| ==> r[i] == ' '
  {
    seq(if |s| < width then width - |s| else 0, _ => ' ') + s
  }

  /** The text decorated for a matching file or directory name. */
  function NameLine(baseName: string, isDir: bool, matchesPhrase: string): string
  {
    baseName + " - " + SelectString(isDir, "dir", "file") + " name " + matchesPhrase
  }

  /** What writePathNameOutputLine prints: the path alone, the path with its
      count, or the name line through the output format. */
  function PathNameOutputLine(showFileNamesOnly: bool, showFileNamesAndCounts: bool, path: string,
                              baseName: string, numMatches: string, isDir: bool, matchesPhrase: string,
                              spans: seq<Span>, d: DecorOptions, acts: seq<Action>, info: LineInfo): Result<seq<Token>>
  {
    if showFileNamesOnly then Ok(Chars(path + info.newLine))
    else if showFileNamesAndCounts then Ok(Chars(PadLeft(numMatches, 15) + " : " + path + info.newLine))
    else if baseName == "" then Fail("Impossible case in show filename only condition")
    else Ok(Render(acts, info.(lineNumber := 0, minIndex := -1,
                               line := Decorated(NameLine(baseName, isDir, matchesPhrase), spans, d))))
  }

  /** writePathNameOutputLine. */
  method WritePathNameOutputLine(showFileNamesOnly: bool, showFileNamesAndCounts: bool, path: string,
                                 baseName: string, numMatches: string, isDir: bool, matchesPhrase: string,
                                 spans: seq<Span>, d: DecorOptions, acts: seq<Action>, info: LineInfo)
    returns (r: Result<seq<Token>>)
    ensures r == PathNameOutputLine(showFileNamesOnly, showFileNamesAndCounts, path, baseName, numMatches,
                                    isDir, matchesPhrase, spans, d, acts, info)
  {
    if showFileNamesOnly {
      return Ok(Chars(path + info.newLine));
    } else if showFileNamesAndCounts {
      return Ok(Chars(PadLeft(numMatches, 15) + " : " + path + info.newLine));
    }
    if baseName == "" {
      return Fail("Impossible case in show filename only condition");
    }
    var fileOrDir := SelectString(isDir, "dir", "file");
    var text := baseName + " - " + fileOrDir + " name " + matchesPhrase;
    var line := InsertMatchDecorations([], text, spans, d);
    assert line == Decorated(NameLine(baseName, isDir, matchesPhrase), spans, d);
    var out := WriteFormattedOutputLine(acts, info.(lineNumber := 0, minIndex := -1, line := line));
    return Ok(out);
  }

  /** In the lines-only format a name match prints the name line, whose
      visible text (without brackets) is the base name, the kind and the
      phrase. */
  lemma PathNameLinesOnly(path: string, baseName: string, numMatches: string, isDir: bool, matchesPhrase: string,
                          spans: seq<Span>, d: DecorOptions, info: LineInfo)
    requires baseName != "" && !d.showBrackets
    ensures var r := PathNameOutputLine(false, false, path, baseName, numMatches, isDir, matchesPhrase, spans, d,
                                        Compile(LinesOnlyFormatString).actions, info);
      r.Ok? && Visible(r.value) == CodePoints(NameLine(baseName, isDir, matchesPhrase) + info.newLine)
  {
    var text := NameLine(baseName, isDir, matchesPhrase);
    var dl := Decorated(text, spans, d);
    RenderLinesOnly(info.(lineNumber := 0, minIndex := -1, line := dl));
    DecoratedVisible(text, spans, d);
    VisibleAppend(dl, Chars(info.newLine));
    VisibleChars(info.newLine);
    CodePointsAppend(text, info.newLine);
  }
}
