/** The output side of ff/format.go: the `%`-escape format compiler and the
    renderer that runs its actions, with highlight markers modelled as tokens. */
module Format {
  import opened Wrappers
  import opened Util

  // =====================================================================
  // Output tokens

  /** One element of an output line: a code point, or a highlight marker
      (colorRuneBegin / colorRuneEnd in the source). */
  datatype Token = Char(c: int) | Begin | End

  predicate IsMarker(t: Token)
  {
    !t.Char?
  }

  /** The tokens of a string, one per code point. */
  function Chars(s: string): (r: seq<Token>)
    ensures |r| == |s|
    ensures forall i :: 0 <= i < |s| ==> r[i] == Char(s[i] as int)
  {
    seq(|s|, i requires 0 <= i < |s| => Char(s[i] as int))
  }

  lemma CharsAppend(s: string, t: string)
    ensures Chars(s + t) == Chars(s) + Chars(t)
  {
  }

  /** The code points that remain when the markers are dropped. */
  function Visible(ts: seq<Token>): (r: seq<int>)
    ensures |r| <= |ts|
  {
    if ts == [] then []
    else Visible(ts[..|ts| - 1]) + (if ts[|ts| - 1].Char? then [ts[|ts| - 1].c] else [])
  }

  lemma VisibleAppend(s: seq<Token>, t: seq<Token>)
    ensures Visible(s + t) == Visible(s) + Visible(t)
    decreases |t|
  {
    if t != [] {
      var u := t[..|t| - 1];
      assert (s + t)[..|s + t| - 1] == s + u;
      VisibleAppend(s, u);
    } else {
      assert s + t == s;
    }
  }

  lemma {:induction false} VisibleChars(s: string)
    ensures Visible(Chars(s)) == CodePoints(s)
    decreases |s|
  {
    if s != [] {
      var p := s[..|s| - 1];
      assert Chars(s)[..|s| - 1] == Chars(p);
      VisibleChars(p);
    }
  }

  // =====================================================================
  // The format compiler (prepareOutputFormat)

  /** The compiled form of one element of the output format string. */
  datatype Action =
    | Literal(c: char)   // a character written as-is; `%%` gives '%'
    | MatchIndex         // %i: the running match count
    | FilePath           // %p: the current file path
    | LineNumber         // %l: the current line number
    | Column             // %c: the first match column, 1-based
    | LineText           // %s: the (decorated) line
    | NewLine            // %n: the platform newline

  /** Outcome of compiling a format string; the two errors end the program. */
  datatype Compiled =
    | Actions(actions: seq<Action>)
    | UnrecognizedEscape(c: char)
    | UnterminatedEscape

  /** The action a character after `%` stands for. */
  function EscapeAction(c: char): (r: Option<Action>)
    ensures r.Some? <==> c in "%iplcsn"
  {
    match c
    case '%' => Some(Literal('%'))
    case 'i' => Some(MatchIndex)
    case 'p' => Some(FilePath)
    case 'l' => Some(LineNumber)
    case 'c' => Some(Column)
    case 's' => Some(LineText)
    case 'n' => Some(NewLine)
    case _ => None
  }

  /** `a` in front of a successful compilation; errors pass through. */
  function Cons(a: Action, r: Compiled): Compiled
  {
    if r.Actions? then Actions([a] + r.actions) else r
  }

  /** `p` in front of a successful compilation; errors pass through. */
  function Prefixed(p: seq<Action>, r: Compiled): Compiled
  {
    if r.Actions? then Actions(p + r.actions) else r
  }

  /** The meaning of a format string, read from the front. */
  function Compile(f: string): Compiled
    decreases |f|, 1
  {
    if f == [] then Actions([])
    else if f[0] != '%' then Cons(Literal(f[0]), Compile(f[1..]))
    else CompileEscaped(f[1..])
  }

  /** The meaning of the rest of a format string just after a `%`. */
  function CompileEscaped(s: string): Compiled
    decreases |s|, 0
  {
    if s == [] then UnterminatedEscape
    else match EscapeAction(s[0])
      case None => UnrecognizedEscape(s[0])
      case Some(a) => Cons(a, Compile(s[1..]))
  }

  lemma PrefixedCons(p: seq<Action>, a: Action, r: Compiled)
    ensures Prefixed(p, Cons(a, r)) == Prefixed(p + [a], r)
  {
    if r.Actions? {
      assert p + ([a] + r.actions) == (p + [a]) + r.actions;
    }
  }

  /** prepareOutputFormat's compiling loop, with the `escape` flag. */
  method PrepareOutputFormat(f: string) returns (r: Compiled)
    ensures r == Compile(f)
  {
    var funcs: seq<Action> := [];
    var escape := false;
    var i := 0;
    while i < |f|
      invariant 0 <= i <= |f|
      invariant !escape ==> Prefixed(funcs, Compile(f[i..])) == Compile(f)
      invariant escape ==> Prefixed(funcs, CompileEscaped(f[i..])) == Compile(f)
    {
      var ch := f[i];
      assert f[i..][1..] == f[i + 1..];
      if ch == '%' {
        if escape {
          PrefixedCons(funcs, Literal('%'), Compile(f[i + 1..]));
          funcs := funcs + [Literal('%')];
          escape := false;
        } else {
          escape := true;
        }
        i := i + 1;
        continue;
      }
      if !escape {
        PrefixedCons(funcs, Literal(ch), Compile(f[i + 1..]));
        funcs := funcs + [Literal(ch)];
        i := i + 1;
        continue;
      }
      var a := EscapeAction(ch);
      if a.None? {
        return UnrecognizedEscape(ch);
      }
      PrefixedCons(funcs, a.value, Compile(f[i + 1..]));
      funcs := funcs + [a.value];
      escape := false;
      i := i + 1;
    }
    if escape {
      return UnterminatedEscape;
    }
    assert funcs + [] == funcs;
    r := Actions(funcs);
  }

  /** The format text an action is written as: the inverse of Compile. */
  function ShowAction(a: Action): (s: string)
    ensures |s| >= 1
  {
    match a
    case Literal(c) => if c == '%' then "%%" else [c]
    case MatchIndex => "%i"
    case FilePath => "%p"
    case LineNumber => "%l"
    case Column => "%c"
    case LineText => "%s"
    case NewLine => "%n"
  }

  function Show(acts: seq<Action>): string
  {
    if acts == [] then "" else ShowAction(acts[0]) + Show(acts[1..])
  }

  /** Compiling the text of one action in front of `f`. */
  lemma CompileShowAction(a: Action, f: string)
    ensures Compile(ShowAction(a) + f) == Cons(a, Compile(f))
  {
    var g := ShowAction(a) + f;
    if a.Literal? && a.c != '%' {
      assert g[0] == a.c && g[1..] == f;
    } else {
      assert g[0] == '%' && g[1..][0] == ShowAction(a)[1] && g[1..][1..] == f;
    }
  }

  /** Every action sequence is what its own format text compiles to. */
  lemma {:induction false} CompileShow(acts: seq<Action>)
    ensures Compile(Show(acts)) == Actions(acts)
  {
    if acts != [] {
      CompileShow(acts[1..]);
      CompileShowAction(acts[0], Show(acts[1..]));
      assert [acts[0]] + acts[1..] == acts;
    }
  }

  lemma ShowCons(a: Action, rest: seq<Action>)
    ensures Show([a] + rest) == ShowAction(a) + Show(rest)
  {
    assert ([a] + rest)[1..] == rest;
  }

  /** The text of the action an escape character stands for is `%` and that character. */
  lemma ShowEscapeAction(c: char)
    requires EscapeAction(c).Some?
    ensures ShowAction(EscapeAction(c).value) == ['%', c]
  {
  }

  /** A format string that compiles is given back by showing its actions. */
  lemma {:induction false} ShowCompile(f: string)
    requires Compile(f).Actions?
    ensures Show(Compile(f).actions) == f
    decreases |f|
  {
    if f != [] {
      if f[0] != '%' {
        var r := Compile(f[1..]);
        ShowCompile(f[1..]);
        ShowCons(Literal(f[0]), r.actions);
        assert f == [f[0]] + f[1..];
      } else {
        var s := f[1..];
        var a := EscapeAction(s[0]).value;
        var r := Compile(s[1..]);
        ShowCompile(s[1..]);
        ShowCons(a, r.actions);
        ShowEscapeAction(s[0]);
        assert f == ['%', s[0]] + s[1..];
      }
    }
  }

  /** outputFormat0: the line only. */
  lemma LinesOnlyFormat()
    ensures Compile("%s%n") == Actions([LineText, NewLine])
  {
  }

  /** A trailing `%` and an unknown escape are both rejected. */
  lemma FormatErrors()
    ensures Compile("%s%") == UnterminatedEscape
    ensures Compile("ab%x%s") == UnrecognizedEscape('x')
  {
  }

  // =====================================================================
  // Output settings (the first half of prepareOutputFormat)

  /** The options prepareOutputFormat consults. */
  datatype FormatOptions = FormatOptions(
    noColor: bool, isTerminal: bool, invertMatch: bool, showBrackets: bool, contextColumns: int,
    showLinesOnly: bool, showFileNamesAndLines: bool, showFileNamesAndCounts: bool, showFileNamesOnly: bool,
    format: string)

  const LinesOnlyFormatString := "%s%n"
  const CompactFormatString := "%p:%l: %s%n"
  const DefaultFormatString := "%n%i. %p line %l col %c%n%s%n"

  /** Colors are used only on a terminal and when not turned off. */
  predicate NeedColoring(o: FormatOptions)
  {
    !o.noColor && o.isTerminal
  }

  /** Matches are decorated unless the match is inverted, and only when colors,
      brackets or context columns need the markers. */
  predicate NeedMatchDecorations(o: FormatOptions)
  {
    !o.invertMatch && (NeedColoring(o) || o.showBrackets || o.contextColumns != 0)
  }

  /** The format string in force: -0 and -1 win over a given format, which
      wins over the default. */
  function OutputFormatString(o: FormatOptions): (f: string)
    ensures o.showLinesOnly ==> f == LinesOnlyFormatString
    ensures !o.showLinesOnly && o.showFileNamesAndLines ==> f == CompactFormatString
    ensures !o.showLinesOnly && !o.showFileNamesAndLines ==> f == (if o.format != "" then o.format else DefaultFormatString)
  {
    if o.showLinesOnly then LinesOnlyFormatString
    else if o.showFileNamesAndLines then CompactFormatString
    else if o.format != "" then o.format
    else DefaultFormatString
  }

  /** What prepareOutputFormat leaves in its globals. In the file-names-only
      modes it stops before choosing a phrase or compiling a format. */
  datatype OutputSetup = OutputSetup(
    needColoring: bool, needMatchDecorations: bool, showFileNamesOnly: bool,
    matchesPhrase: string, compiled: Compiled)

  method PrepareOutput(o: FormatOptions) returns (r: OutputSetup)
    ensures r.needColoring == NeedColoring(o) && r.needMatchDecorations == NeedMatchDecorations(o)
    ensures r.showFileNamesOnly <==> o.showFileNamesAndCounts || o.showFileNamesOnly
    ensures r.showFileNamesOnly ==> r.matchesPhrase == "" && r.compiled == Actions([])
    ensures !r.showFileNamesOnly ==>
              r.matchesPhrase == (if o.invertMatch then "does not match" else "matches")
              && r.compiled == Compile(OutputFormatString(o))
  {
    var needColoring := !o.noColor && o.isTerminal;
    var needMatchDecorations := !o.invertMatch && (needColoring || o.showBrackets || o.contextColumns != 0);
    if o.showFileNamesAndCounts || o.showFileNamesOnly {
      return OutputSetup(needColoring, needMatchDecorations, true, "", Actions([]));
    }
    var phrase := SelectString(o.invertMatch, "does not match", "matches");
    var compiled := PrepareOutputFormat(OutputFormatString(o));
    r := OutputSetup(needColoring, needMatchDecorations, false, phrase, compiled);
  }

  /** Inverted matching never decorates: there is no match to mark. */
  lemma InvertedHasNoDecorations(o: FormatOptions)
    ensures o.invertMatch ==> !NeedMatchDecorations(o)
    ensures !o.invertMatch && o.contextColumns != 0 ==> NeedMatchDecorations(o)
  {
  }

  // =====================================================================
  // Running the compiled format (writeFormattedOutputLine)

  /** The globals the output actions read. */
  datatype LineInfo = LineInfo(
    matchCount: int, path: string, lineNumber: int, minIndex: int, line: seq<Token>, newLine: string)

  /** What one action writes; the line's markers go on to the color handling. */
  function Emit(a: Action, info: LineInfo): seq<Token>
  {
    match a
    case Literal(c) => [Char(c as int)]
    case MatchIndex => Chars(Decimal(info.matchCount))
    case FilePath => Chars(info.path)
    case LineNumber => Chars(Decimal(info.lineNumber))
    case Column => Chars(Decimal(info.minIndex + 1))
    case LineText => info.line
    case NewLine => Chars(info.newLine)
  }

  /** What a sequence of actions writes, in order. */
  function Render(acts: seq<Action>, info: LineInfo): seq<Token>
  {
    if acts == [] then [] else Render(acts[..|acts| - 1], info) + Emit(acts[|acts| - 1], info)
  }

  /** Rendering distributes over concatenation of formats. */
  lemma {:induction false} RenderAppend(a: seq<Action>, b: seq<Action>, info: LineInfo)
    ensures Render(a + b, info) == Render(a, info) + Render(b, info)
    decreases |b|
  {
    hide Emit;
    if b == [] {
      assert a + b == a;
    } else {
      var c, x := b[..|b| - 1], b[|b| - 1];
      assert (a + b)[..|a + b| - 1] == a + c && (a + b)[|a + b| - 1] == x;
      RenderAppend(a, c, info);
      assert Render(a + b, info) == Render(a + c, info) + Emit(x, info);
      assert Render(b, info) == Render(c, info) + Emit(x, info);
    }
  }

  lemma RenderSingle(a: Action, info: LineInfo)
    ensures Render([a], info) == Emit(a, info)
  {
    assert [a][..0] == [];
  }

  /** writeFormattedOutputLine: runs every compiled action in order. */
  method WriteFormattedOutputLine(acts: seq<Action>, info: LineInfo) returns (out: seq<Token>)
    ensures out == Render(acts, info)
  {
    out := [];
    for i := 0 to |acts|
      invariant out == Render(acts[..i], info)
    {
      assert acts[..i + 1][..i] == acts[..i];
      RenderAppend(acts[..i], [acts[i]], info);
      assert acts[..i] + [acts[i]] == acts[..i + 1];
      assert [acts[i]][..0] == [];
      out := out + Emit(acts[i], info);
    }
    assert acts[..|acts|] == acts;
  }

  /** A format without `%` writes itself, whatever the line. */
  lemma {:induction false} RenderPlainText(f: string, info: LineInfo)
    requires '%' !in f
    ensures Compile(f).Actions? && Render(Compile(f).actions, info) == Chars(f)
    decreases |f|
  {
    if f != [] {
      RenderPlainText(f[1..], info);
      var rest := Compile(f[1..]).actions;
      assert Compile(f).actions == [Literal(f[0])] + rest;
      RenderAppend([Literal(f[0])], rest, info);
      RenderSingle(Literal(f[0]), info);
      assert Chars([f[0]]) == [Char(f[0] as int)];
      CharsAppend([f[0]], f[1..]);
      assert [f[0]] + f[1..] == f;
    }
  }

  /** The line-only format writes the line followed by the newline. */
  lemma RenderLinesOnly(info: LineInfo)
    ensures Render(Compile(LinesOnlyFormatString).actions, info) == info.line + Chars(info.newLine)
  {
    LinesOnlyFormat();
    var acts := [LineText, NewLine];
    assert acts[..1] == [LineText];
    assert [LineText][..0] == [];
    RenderAppend([LineText], [NewLine], info);
    assert [NewLine][..0] == [];
  }
}
