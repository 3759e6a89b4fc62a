/** The per-entry search of ff/findfile.go: visiting every entry the walk
    yields, matching its base name, and scanning a file's lines through the
    context rings, one numbered line at a time. */
module Scan {
  import opened Wrappers
  import opened Util
  import opened Matching
  import opened MatchRecord
  import opened Format
  import opened Decorate
  import opened Transform
  import opened ContextIO
  import opened Output
  import opened Traversal

  /** The options and prepared globals the search reads. */
  datatype Settings = Settings(
    terms: SearchTerms, matching: MatchOptions, lowerRune: char -> char, nonWord: int -> bool,
    searchBinaryFiles: bool, decor: DecorOptions, line: LineOptions,
    acts: seq<Action>, newLine: string, matchesPhrase: string,
    showFileNamesOnly: bool, format3: bool, format2: bool,
    listAll: bool, contentsOnly: bool, namesOnly: bool)
  {
    /** As prepareSearchString and prepareOutputFormat leave them: one
        needMatchDecorations flag, off under -v. */
    ghost predicate Valid()
    {
      terms.Valid() && line.contextColumns >= 0
      && line.needMatchDecorations == decor.needMatchDecorations
      && (matching.invertMatch ==> !decor.needMatchDecorations)
    }

    lemma TermsValid()
      requires Valid()
      ensures terms.Valid() && line.contextColumns >= 0
    {
    }
  }

  // =====================================================================
  // One line (checkPrintLineMatch)

  /** What checkLineMatchFullInfo records for a line. */
  function LineMatch(text: string, s: Settings): MatchResult
    requires s.terms.Valid()
  {
    ExactMatch(LineCodePoints(text, s.matching, s.lowerRune), s.terms, s.matching.wholeWord, s.nonWord)
  }

  /** A line is reported, and counted, when it is not empty and its match
      verdict differs from -v. */
  predicate Counted(text: string, s: Settings)
    requires s.terms.Valid()
  {
    text != "" && LineMatch(text, s).matched != s.matching.invertMatch
  }

  /** The line checkPrintLineMatch hands on, as written: without decorations
      the array still holds the code points the matcher scanned, which are
      case-folded under -i. */
  function PrintedLineAsWritten(text: string, spans: seq<Span>, s: Settings): seq<Token>
  {
    if s.decor.needMatchDecorations then Decorated(text, spans, s.decor)
    else Chars(if s.matching.ignoreCase then ToLower(text, s.lowerRune) else text)
  }

  /** The line checkPrintLineMatch evidently means to hand on: the line as
      read, decorated when decorations are on. */
  function PrintedLine(text: string, spans: seq<Span>, s: Settings): seq<Token>
  {
    Decorated(text, spans, s.decor)
  }

  /** Without brackets the printed line shows the text as read, whatever the
      case folding. */
  lemma PrintedLineShowsText(text: string, spans: seq<Span>, s: Settings)
    requires !s.decor.showBrackets
    ensures Visible(PrintedLine(text, spans, s)) == CodePoints(text)
  {
    DecoratedVisible(text, spans, s.decor);
  }

  /** As written, -i without decorations prints the case-folded line: "A"
      comes out as "a". */
  lemma CaseFoldedLinePrinted(spans: seq<Span>, s: Settings)
    requires s.matching.ignoreCase && !s.decor.needMatchDecorations && s.lowerRune('A') == 'a'
    ensures PrintedLineAsWritten("A", spans, s) == [Char('a' as int)]
    ensures PrintedLine("A", spans, s) == [Char('A' as int)]
  {
    assert ToLower("A", s.lowerRune) == "a";
  }

  /** One checked line: its number, its text and the lines pushed as
      pre-context before it. */
  datatype Check = Check(lineNumber: int, text: string, before: seq<string>)

  // =====================================================================
  // The specification of a file's scan

  /** The pre-context a file's line `k` (from 0) is checked with: the lines
      before it, none when there are no context lines. */
  function Before(lines: seq<string>, k: nat, n: int): seq<string>
    requires k <= |lines|
  {
    if n == 0 then [] else lines[..k]
  }

  /** The first `k` lines checked, numbered from 1, when the lines pushed
      before the file are `prior`. */
  function Numbered(lines: seq<string>, k: nat, n: int, prior: seq<string>): (r: seq<Check>)
    requires k <= |lines|
  {
    if k == 0 then [] else Numbered(lines, k - 1, n, prior) + [Check(k, lines[k - 1], prior + Before(lines, k - 1, n))]
  }

  /** The `i`-th check is line `i + 1`; its pre-context is everything pushed
      before the file followed by every earlier line of the file. */
  lemma {:induction false} NumberedSpec(lines: seq<string>, k: nat, n: int, prior: seq<string>)
    requires k <= |lines|
    ensures |Numbered(lines, k, n, prior)| == k
    ensures forall i :: 0 <= i < k ==>
              Numbered(lines, k, n, prior)[i] == Check(i + 1, lines[i], prior + Before(lines, i, n))
  {
    if k > 0 {
      NumberedSpec(lines, k - 1, n, prior);
    }
  }

  /** Nothing in the scan clears the pre-context: with context lines, the
      first line of a file is checked with the lines pushed for the files
      before it. */
  lemma FirstLineCarriesPrior(lines: seq<string>, n: int, prior: seq<string>, s: Settings)
    requires lines != [] && (s.searchBinaryFiles || !HasControl(CodePoints(lines[0]))) && !s.showFileNamesOnly
    ensures FileChecks(lines, n, s, prior)[0] == Check(1, lines[0], prior)
  {
    NumberedSpec(lines, |lines|, n, prior);
    assert lines[..0] == [];
  }

  /** One more line checked. */
  lemma NumberedStep(lines: seq<string>, k: nat, n: int, prior: seq<string>)
    requires k < |lines|
    ensures Numbered(lines, 0, n, prior) == []
    ensures Numbered(lines, k + 1, n, prior)
            == Numbered(lines, k, n, prior) + [Check(k + 1, lines[k], prior + Before(lines, k, n))]
  {
  }

  /** One more line counted. */
  lemma CountStep(lines: seq<string>, k: nat, s: Settings)
    requires k < |lines| && s.terms.Valid()
    ensures CountCounted(lines, 0, s) == 0 && CountMatching(lines, 0, s) == 0
    ensures CountCounted(lines, k + 1, s) == CountCounted(lines, k, s) + (if Counted(lines[k], s) then 1 else 0)
    ensures CountMatching(lines, k + 1, s)
            == CountMatching(lines, k, s) + (if LineMatches(lines[k], s.terms, s.matching, s.lowerRune, s.nonWord) then 1 else 0)
  {
  }

  /** One more line pushed as pre-context. */
  lemma BeforeStep(lines: seq<string>, k: nat, n: int)
    requires k < |lines|
    ensures Before(lines, 0, n) == []
    ensures Before(lines, k + 1, n) == if n == 0 then Before(lines, k, n) else Before(lines, k, n) + [lines[k]]
  {
    if n != 0 {
      assert lines[..k + 1] == lines[..k] + [lines[k]];
    }
  }

  /** The lines of a file searchFileContents checks: none for an empty file,
      for a binary one (unless binary files are searched) or in the
      file-names-only modes; otherwise every line. */
  function FileChecks(lines: seq<string>, n: int, s: Settings, prior: seq<string>): seq<Check>
  {
    if lines == [] || (!s.searchBinaryFiles && HasControl(CodePoints(lines[0]))) || s.showFileNamesOnly then []
    else Numbered(lines, |lines|, n, prior)
  }

  /** The lines searchFileContents pushes as pre-context: every line of a
      scanned file but the last (none without context lines), and nothing
      for a file that is not scanned line by line. */
  function FilePushed(lines: seq<string>, n: int, s: Settings): seq<string>
  {
    if lines == [] || (!s.searchBinaryFiles && HasControl(CodePoints(lines[0]))) || s.showFileNamesOnly then []
    else Before(lines, |lines| - 1, n)
  }

  /** The number of counted lines among the first `k`. */
  function CountCounted(lines: seq<string>, k: nat, s: Settings): (c: nat)
    requires k <= |lines| && s.terms.Valid()
    ensures c <= k
  {
    if k == 0 then 0 else CountCounted(lines, k - 1, s) + (if Counted(lines[k - 1], s) then 1 else 0)
  }

  /** The number of lines among the first `k` that isLineMatching accepts. */
  function CountMatching(lines: seq<string>, k: nat, s: Settings): (c: nat)
    requires k <= |lines| && s.terms.Valid()
    ensures c <= k
  {
    if k == 0 then 0
    else CountMatching(lines, k - 1, s) + (if LineMatches(lines[k - 1], s.terms, s.matching, s.lowerRune, s.nonWord) then 1 else 0)
  }

  /** The count is positive exactly when some line matches. */
  lemma {:induction false} CountMatchingPositive(lines: seq<string>, k: nat, s: Settings)
    requires k <= |lines| && s.terms.Valid()
    ensures CountMatching(lines, k, s) > 0
            <==> exists i :: 0 <= i < k && LineMatches(lines[i], s.terms, s.matching, s.lowerRune, s.nonWord)
  {
    if k > 0 {
      CountMatchingPositive(lines, k - 1, s);
      if LineMatches(lines[k - 1], s.terms, s.matching, s.lowerRune, s.nonWord) {
        assert CountMatching(lines, k, s) > 0;
      }
    }
  }

  /** Every counted line is a line of the file, so a file adds at most one
      count per line. */
  lemma {:induction false} CountCountedPositive(lines: seq<string>, k: nat, s: Settings)
    requires k <= |lines| && s.terms.Valid()
    ensures CountCounted(lines, k, s) > 0 <==> exists i :: 0 <= i < k && Counted(lines[i], s)
  {
    if k > 0 {
      CountCountedPositive(lines, k - 1, s);
      if Counted(lines[k - 1], s) {
        assert CountCounted(lines, k, s) > 0;
      }
    }
  }

  /** What a file adds to the match count. */
  function FileMatchCount(lines: seq<string>, s: Settings): nat
    requires s.terms.Valid()
  {
    if lines == [] || (!s.searchBinaryFiles && HasControl(CodePoints(lines[0]))) then 0
    else if s.showFileNamesOnly then
      var c := CountMatching(lines, |lines|, s);
      if (c > 0) != s.matching.invertMatch then c else 0
    else CountCounted(lines, |lines|, s)
  }

  /** What searchFileContentsForFileNameOnly prints for a file with `count`
      matching lines, or the error it stops with. */
  function FileNameOnlyOutput(path: string, count: nat, s: Settings): Result<seq<Token>>
  {
    if (count > 0) == s.matching.invertMatch then Ok([])
    else if s.format3 then Ok(Chars(path + s.newLine))
    else if s.format2 then Ok(Chars(PadLeft(Decimal(count), 10) + " : " + path + s.newLine))
    else Fail("Unknown output format for filename only")
  }

  /** A file with `count` matching lines is listed (something is printed)
      exactly when `count > 0` differs from -v. */
  lemma FileNameOnlyOutputListed(path: string, count: nat, s: Settings)
    requires (s.format3 || s.format2) && s.newLine != ""
    ensures FileNameOnlyOutput(path, count, s).Ok?
    ensures FileNameOnlyOutput(path, count, s) != Ok([]) <==> (count > 0) != s.matching.invertMatch
  {
    if (count > 0) != s.matching.invertMatch {
      var text := if s.format3 then path + s.newLine else PadLeft(Decimal(count), 10) + " : " + path + s.newLine;
      assert FileNameOnlyOutput(path, count, s) == Ok(Chars(text));
      assert |Chars(text)| >= |s.newLine| > 0;
    }
  }

  /** Without -v a file is listed exactly when one of its lines matches, and
      with -v exactly when none does. */
  lemma FileNameOnlyListed(lines: seq<string>, path: string, s: Settings)
    requires s.terms.Valid() && (s.format3 || s.format2) && s.newLine != ""
    ensures FileNameOnlyOutput(path, CountMatching(lines, |lines|, s), s) != Ok([])
            <==> (exists i :: 0 <= i < |lines| && LineMatches(lines[i], s.terms, s.matching, s.lowerRune, s.nonWord))
                 != s.matching.invertMatch
  {
    CountMatchingPositive(lines, |lines|, s);
    FileNameOnlyOutputListed(path, CountMatching(lines, |lines|, s), s);
  }

  /** What searchFileContentsForFileNameOnly prints for a file that is
      scanned in the file-names-only modes, and nothing otherwise. */
  function FileNameOnlyText(lines: seq<string>, path: string, s: Settings): Result<seq<Token>>
    requires s.terms.Valid()
  {
    if lines == [] || (!s.searchBinaryFiles && HasControl(CodePoints(lines[0]))) || !s.showFileNamesOnly then Ok([])
    else FileNameOnlyOutput(path, CountMatching(lines, |lines|, s), s)
  }

  /** The four ways searchFileContents can go, as the specification
      functions see them. */
  lemma FileCases(lines: seq<string>, path: string, n: int, s: Settings, prior: seq<string>)
    requires s.terms.Valid()
    ensures var skipped := lines == [] || (!s.searchBinaryFiles && HasControl(CodePoints(lines[0])));
      && (skipped ==> FileChecks(lines, n, s, prior) == [] && FilePushed(lines, n, s) == []
                      && FileMatchCount(lines, s) == 0 && FileNameOnlyText(lines, path, s) == Ok([]))
      && (!skipped && s.showFileNamesOnly ==>
            var c := CountMatching(lines, |lines|, s);
            FileChecks(lines, n, s, prior) == [] && FilePushed(lines, n, s) == []
            && FileMatchCount(lines, s) == (if (c > 0) != s.matching.invertMatch then c else 0)
            && FileNameOnlyText(lines, path, s) == FileNameOnlyOutput(path, c, s))
      && (!skipped && !s.showFileNamesOnly ==>
            FileChecks(lines, n, s, prior) == Numbered(lines, |lines|, n, prior)
            && FilePushed(lines, n, s) == Before(lines, |lines| - 1, n)
            && FileMatchCount(lines, s) == CountCounted(lines, |lines|, s)
            && FileNameOnlyText(lines, path, s) == Ok([]))
  {
  }

  /** filepath.Base of an entry's path: the entry's name, "." for an empty one. */
  function BaseName(e: Entry): (r: string)
    ensures r != ""
  {
    if e.name == "" then "." else e.name
  }

  /** What searchPathName writes for a matching name: the name line,
      decorated, through the output format with line number 0 and no match
      column. */
  function NameOutput(path: string, baseName: string, isDir: bool, count: int, s: Settings): seq<Token>
    requires s.terms.Valid()
  {
    Render(s.acts, LineInfo(count, path, 0, -1,
                            Decorated(NameLine(baseName, isDir, s.matchesPhrase), LineMatch(baseName, s).spans, s.decor),
                            s.newLine))
  }

  /** searchPathName writes what the last branch of writePathNameOutputLine
      writes for the same name. */
  lemma NameOutputIsPathNameLine(baseName: string, isDir: bool, s: Settings, numMatches: string, info: LineInfo)
    requires s.terms.Valid() && baseName != "" && info.newLine == s.newLine
    ensures PathNameOutputLine(false, false, info.path, baseName, numMatches, isDir, s.matchesPhrase,
                               LineMatch(baseName, s).spans, s.decor, s.acts, info)
            == Ok(NameOutput(info.path, baseName, isDir, info.matchCount, s))
  {
  }

  /** What visiting an entry adds to the match count: nothing under -la; its
      name unless -c; its lines when it is a readable file and not -n. */
  function VisitCount(e: Entry, s: Settings): nat
    requires s.terms.Valid()
  {
    if s.listAll then 0
    else
      (if !s.contentsOnly && Counted(BaseName(e), s) then 1 else 0)
      + (if !e.isDir && !s.namesOnly && e.lines.Some? then FileMatchCount(e.lines.value, s) else 0)
  }

  /** The lines checked when visiting an entry. */
  function VisitChecks(e: Entry, n: int, s: Settings, prior: seq<string>): seq<Check>
  {
    if s.listAll || e.isDir || s.namesOnly || e.lines.None? then [] else FileChecks(e.lines.value, n, s, prior)
  }

  /** The lines pushed as pre-context when visiting an entry. */
  function VisitPushed(e: Entry, n: int, s: Settings): seq<string>
  {
    if s.listAll || e.isDir || s.namesOnly || e.lines.None? then [] else FilePushed(e.lines.value, n, s)
  }

  /** The match count over a sequence of visited nodes. */
  function TotalCount(ns: seq<Node>, s: Settings): nat
    requires s.terms.Valid()
  {
    if ns == [] then 0 else TotalCount(ns[..|ns| - 1], s) + VisitCount(ns[|ns| - 1].entry, s)
  }

  /** The lines pushed as pre-context over a sequence of visited nodes. */
  function AllPushed(ns: seq<Node>, n: int, s: Settings): seq<string>
  {
    if ns == [] then [] else AllPushed(ns[..|ns| - 1], n, s) + VisitPushed(ns[|ns| - 1].entry, n, s)
  }

  /** The lines checked over a sequence of visited nodes, when the lines
      pushed before the first are `prior`: each file starts from what the
      files before it left in the pre-context. */
  function AllChecks(ns: seq<Node>, n: int, s: Settings, prior: seq<string>): seq<Check>
  {
    if ns == [] then []
    else
      var p := ns[..|ns| - 1];
      AllChecks(p, n, s, prior) + VisitChecks(ns[|ns| - 1].entry, n, s, prior + AllPushed(p, n, s))
  }

  /** The number of directories among the visited nodes. */
  function DirCount(ns: seq<Node>): (c: nat)
    ensures c <= |ns|
  {
    if ns == [] then 0 else DirCount(ns[..|ns| - 1]) + (if ns[|ns| - 1].entry.isDir then 1 else 0)
  }

  /** What -la prints: every visited path on a line of its own. */
  function Listing(ns: seq<Node>, newLine: string): seq<Token>
  {
    if ns == [] then [] else Listing(ns[..|ns| - 1], newLine) + Chars(ns[|ns| - 1].path + newLine)
  }

  /** Nothing visited yet, and one more node visited. */
  lemma VisitStep(ns: seq<Node>, i: nat, n: int, s: Settings, prior: seq<string>)
    requires i <= |ns| && s.terms.Valid()
    ensures TotalCount(ns[..0], s) == 0 && AllChecks(ns[..0], n, s, prior) == [] && DirCount(ns[..0]) == 0
    ensures AllPushed(ns[..0], n, s) == []
    ensures Listing(ns[..0], s.newLine) == []
    ensures i < |ns| ==>
              var p, q := ns[..i], ns[..i + 1];
              && TotalCount(q, s) == TotalCount(p, s) + VisitCount(ns[i].entry, s)
              && AllChecks(q, n, s, prior) == AllChecks(p, n, s, prior) + VisitChecks(ns[i].entry, n, s, prior + AllPushed(p, n, s))
              && AllPushed(q, n, s) == AllPushed(p, n, s) + VisitPushed(ns[i].entry, n, s)
              && DirCount(q) == DirCount(p) + (if ns[i].entry.isDir then 1 else 0)
              && Listing(q, s.newLine) == Listing(p, s.newLine) + Chars(ns[i].path + s.newLine)
  {
    assert ns[..0] == [];
    if i < |ns| {
      assert ns[..i + 1][..i] == ns[..i];
    }
  }

  /** The window a matching line leaves and the text written for it. */
  datatype Printed = Printed(window: Window, text: seq<Token>)

  /** What checkPrintLineMatch writes for a counted line: the line
      transformed with its context (transformOutputLine), rendered through the
      output format with the running match count and the first match column
      (writeFormattedOutputLine). */
  function MatchOutput(line: seq<Token>, n: nat, lineNumber: int, pre: seq<ContextLine>, post: seq<ContextLine>,
                       s: Settings, w: Window, count: int, path: string, minIndex: int): (r: Result<Printed>)
    requires |pre| == n && |post| == n && WindowOk(w) && s.line.contextColumns >= 0
    ensures r.Ok? ==> WindowOk(r.value.window)
  {
    var t := OutputLine(line, n, lineNumber, pre, post, s.line, w, s.newLine);
    if t.Fail? then Fail(t.message)
    else
      OutputLineWindowOk(line, n, lineNumber, pre, post, s.line, w, s.newLine);
      Ok(Printed(t.value.window, Render(s.acts, LineInfo(count, path, lineNumber, minIndex, t.value.line, s.newLine))))
  }


  /** hasControlCharacters: some code point of the line is a control character. */
  method HasControlCharacters(line: string) returns (r: bool)
    ensures r <==> HasControl(CodePoints(line))
  {
    var i := 0;
    while i < |line|
      invariant 0 <= i <= |line|
      invariant forall k :: 0 <= k < i ==> !IsControlCharacter(line[k] as int)
    {
      if IsControlCharacter(line[i] as int) {
        assert CodePoints(line)[i] == line[i] as int;
        return true;
      }
      i := i + 1;
    }
    return false;
  }

  // =====================================================================
  // The searcher

  /** The globals of the search: the match count, the entry counters, the
      window left by the last line, what has been printed, and (as ghost
      state) every line checked. */
  class Searcher {
    const s: Settings
    const reader: ContextReader
    const info: MatchInfo
    var matchCount: int
    var dirsRead: int
    var filesRead: int
    var window: Window
    var out: seq<Token>
    ghost var checks: seq<Check>

    /** Between files: the rings are consistent and nothing is read ahead. */
    ghost predicate Valid()
      reads this, reader, reader.pre, reader.post, reader.scanner
    {
      s.Valid() && reader.Valid() && !reader.pending && reader.ahead == [] && WindowOk(window)
    }

    lemma Unpack()
      requires Valid()
      ensures s.Valid() && s.terms.Valid() && reader.Valid() && !reader.pending && reader.ahead == [] && WindowOk(window)
    {
      s.TermsValid();
    }

    lemma Pack()
      requires s.Valid() && reader.Valid() && !reader.pending && reader.ahead == [] && WindowOk(window)
      ensures Valid()
    {
    }

    constructor(s: Settings, n: int)
      requires s.Valid() && n >= 0
      ensures Valid() && this.s == s && reader.n == n && fresh(reader) && fresh(info)
      ensures fresh(reader.pre) && fresh(reader.post) && fresh(reader.scanner)
      ensures matchCount == 0 && dirsRead == 0 && filesRead == 0 && out == [] && checks == []
    {
      this.s := s;
      reader := new ContextReader(n, []);
      info := new MatchInfo();
      matchCount := 0;
      dirsRead := 0;
      filesRead := 0;
      window := Window(0, 0);
      out := [];
      checks := [];
    }

    /** checkPrintLineMatch: an empty line is skipped; otherwise the line is
        matched, and a counted line is decorated, transformed with its
        context and written through the output format. */
    method CheckPrintLineMatch(text: string, lineNumber: int, path: string) returns (r: Result<bool>)
      requires s.Valid() && reader.Valid() && !reader.pending && WindowOk(window)
      modifies this, info, reader, reader.post, reader.scanner
      ensures reader.Valid() && !reader.pending && WindowOk(window)
      ensures matchCount == old(matchCount) + (if Counted(text, s) then 1 else 0)
      ensures r.Ok? ==> (r.value <==> Counted(text, s))
      ensures !Counted(text, s) ==> r == Ok(false) && out == old(out) && window == old(window) && reader.ahead == old(reader.ahead)
      ensures Counted(text, s) ==>
                var p := MatchOutput(PrintedLineAsWritten(text, LineMatch(text, s).spans, s), reader.n, lineNumber,
                                     old(reader.PreLines()), reader.PostLines(), s, old(window), matchCount, path, info.minIndex);
                (r.Fail? <==> p.Fail?) && (p.Ok? ==> window == p.value.window && out == old(out) + p.value.text)
      ensures Counted(text, s) ==> info.Valid() && info.spans == LineMatch(text, s).spans
      ensures reader.consumed == old(reader.consumed) && reader.stream == old(reader.stream)
      ensures reader.pushed == old(reader.pushed) && old(reader.ahead) <= reader.ahead
      ensures reader.scanner == old(reader.scanner)
      ensures dirsRead == old(dirsRead) && filesRead == old(filesRead) && checks == old(checks)
    {
      hide OutputLine, MatchOutput, LineMatch, Decorated, ExactMatch, Settings.Valid, SearchTerms.Valid, ContextReader.Valid;
      hide ContextReader.PreLines, ContextReader.PostLines;
      s.TermsValid();
      reader.Rings();
      ghost var pre := reader.PreLines();
      var out0, window0, count0 := out, window, matchCount;
      if text == "" {
        return Ok(false);
      }
      var counted := MatchLine(text);
      if !counted {
        return Ok(false);
      }
      matchCount := count0 + 1;
      // Without decorations the array keeps the code points the matcher
      // scanned, which are never empty for a non-empty line.
      var line;
      if s.decor.needMatchDecorations {
        line := InsertMatchDecorations([], text, info.spans, s.decor);
      } else {
        line := Chars(if s.matching.ignoreCase then ToLower(text, s.lowerRune) else text);
      }
      ghost var printed := PrintedLineAsWritten(text, LineMatch(text, s).spans, s);
      assert line == printed;
      assert pre == reader.PreLines();
      var p := PrintMatchingLine(line, lineNumber, path, window0, count0 + 1, pre);
      reader.Rings();
      assert p == MatchOutput(printed, reader.n, lineNumber, pre, reader.PostLines(), s, window0, matchCount, path, info.minIndex);
      if p.Fail? {
        return Fail(p.message);
      }
      window, out := p.value.window, out0 + p.value.text;
      return Ok(true);
    }

    /** The first half of checkPrintLineMatch: checkLineMatchFullInfo on a
        non-empty line and the comparison with -v. */
    method MatchLine(text: string) returns (counted: bool)
      requires text != "" && s.Valid()
      modifies info
      ensures counted == Counted(text, s)
      ensures info.Valid() && info.spans == LineMatch(text, s).spans
    {
      info.CheckLineMatchFullInfo(text, s.terms, s.matching, s.lowerRune, s.nonWord);
      counted := info.matched != s.matching.invertMatch;
    }

    /** The second half of checkPrintLineMatch: transformOutputLine, then
        writeFormattedOutputLine. */
    method PrintMatchingLine(line: seq<Token>, lineNumber: int, path: string, w: Window, count: int,
                             ghost pre: seq<ContextLine>) returns (r: Result<Printed>)
      requires s.Valid() && reader.Valid() && !reader.pending && WindowOk(w) && pre == reader.PreLines()
      modifies reader, reader.post, reader.scanner
      ensures reader.Valid() && !reader.pending
      ensures r == MatchOutput(line, reader.n, lineNumber, pre, reader.PostLines(), s, w, count, path, info.minIndex)
      ensures reader.consumed == old(reader.consumed) && reader.stream == old(reader.stream)
      ensures reader.pushed == old(reader.pushed) && old(reader.ahead) <= reader.ahead
      ensures reader.scanner == old(reader.scanner)
    {
      hide OutputLine, Settings.Valid, SearchTerms.Valid;
      s.TermsValid();
      var t := TransformOutputLine(line, lineNumber, reader, s.line, w, s.newLine);
      if t.Fail? {
        return Fail(t.message);
      }
      var o := WriteFormattedOutputLine(s.acts, LineInfo(count, path, lineNumber, info.minIndex, t.value.line, s.newLine));
      return Ok(Printed(t.value.window, o));
    }

    /** searchPathName: the base name is matched like a line; a counted name
        is written as a name line with line number 0. */
    method SearchPathName(path: string, baseName: string, isDir: bool)
      requires s.Valid() && baseName != ""
      modifies this, info
      ensures matchCount == old(matchCount) + (if Counted(baseName, s) then 1 else 0)
      ensures out == old(out) + (if Counted(baseName, s) then NameOutput(path, baseName, isDir, matchCount, s) else [])
      ensures window == old(window) && checks == old(checks)
      ensures dirsRead == old(dirsRead) && filesRead == old(filesRead)
    {
      hide LineMatch, ExactMatch, Render, Decorated, Counted;
      var counted := MatchLine(baseName);
      if !counted {
        return;
      }
      matchCount := matchCount + 1;
      info.minIndex := -1;
      var text := baseName + " - " + SelectString(isDir, "dir", "file") + " name " + s.matchesPhrase;
      assert text == NameLine(baseName, isDir, s.matchesPhrase);
      var line := InsertMatchDecorations([], text, info.spans, s.decor);
      assert line == Decorated(NameLine(baseName, isDir, s.matchesPhrase), LineMatch(baseName, s).spans, s.decor);
      var o := WriteFormattedOutputLine(s.acts, LineInfo(matchCount, path, 0, info.minIndex, line, s.newLine));
      out := out + o;
    }

    /** searchFileContentsForFileNameOnly: the lines are counted, and a file
        whose verdict differs from -v adds its count and is listed. */
    method SearchFileContentsForFileNameOnly(path: string, firstLine: string, ghost file: seq<string>)
      returns (r: Result<()>)
      requires s.Valid() && reader.Valid() && !reader.pending && reader.ahead == []
      requires reader.stream == file && reader.consumed == [firstLine]
      modifies this, reader, reader.post, reader.scanner
      ensures reader.Valid() && !reader.pending && reader.ahead == [] && reader.pushed == old(reader.pushed)
      ensures reader.scanner == old(reader.scanner) && |file| > 0
      ensures var c := CountMatching(file, |file|, s);
              matchCount == old(matchCount) + (if (c > 0) != s.matching.invertMatch then c else 0)
      ensures var o := FileNameOnlyOutput(path, CountMatching(file, |file|, s), s);
              r == (if o.Ok? then Ok(()) else Fail(o.message)) && (o.Ok? ==> out == old(out) + o.value)
      ensures window == old(window) && checks == old(checks)
      ensures dirsRead == old(dirsRead) && filesRead == old(filesRead)
    {
      hide Settings.Valid, SearchTerms.Valid, ContextReader.Valid, CountMatching;
      var numMatches := CountFileMatches(firstLine, file);
      if (numMatches > 0) == s.matching.invertMatch {
        return Ok(());
      }
      matchCount := matchCount + numMatches;
      if s.format3 {
        out := out + Chars(path + s.newLine);
      } else if s.format2 {
        out := out + Chars(PadLeft(Decimal(numMatches), 10) + " : " + path + s.newLine);
      } else {
        return Fail("Unknown output format for filename only");
      }
      return Ok(());
    }

    /** The loop of searchFileContentsForFileNameOnly: every line of the file,
        from the first, is read once and counted when isLineMatching
        accepts it. */
    method CountFileMatches(firstLine: string, ghost file: seq<string>) returns (numMatches: nat)
      requires s.Valid() && reader.Valid() && !reader.pending && reader.ahead == []
      requires reader.stream == file && reader.consumed == [firstLine]
      modifies reader, reader.post, reader.scanner
      ensures reader.Valid() && !reader.pending && reader.ahead == [] && reader.pushed == old(reader.pushed)
      ensures reader.scanner == old(reader.scanner)
      ensures |file| > 0 && numMatches == CountMatching(file, |file|, s)
    {
      hide *;
      s.TermsValid();
      reader.ConsumedIsPrefix();
      CountStep(file, 0, s);
      ghost var sc := reader.scanner;
      ghost var pushed := reader.pushed;
      var line := firstLine;
      numMatches := 0;
      while true
        invariant reader.Valid() && !reader.pending && reader.ahead == [] && reader.scanner == sc
        invariant reader.stream == file && reader.pushed == pushed
        invariant 1 <= |reader.consumed| <= |file| && reader.consumed == file[..|reader.consumed|]
        invariant line == file[|reader.consumed| - 1]
        invariant numMatches == CountMatching(file, |reader.consumed| - 1, s)
        decreases |file| - |reader.consumed|
      {
        CountStep(file, |reader.consumed| - 1, s);
        var matches := IsLineMatching(line, s.terms, s.matching, s.lowerRune, s.nonWord);
        if matches {
          numMatches := numMatches + 1;
        }
        var more := reader.HasNextLineInFileOrCache();
        if !more {
          return;
        }
        line := reader.GetNextLineFromFileOrCache();
        reader.ConsumedIsPrefix();
      }
    }

    /** Line `k` (from 1) of `file` is read and the lines before it are
        pushed as pre-context after the `prior` ones. */
    ghost predicate AtLine(file: seq<string>, k: int, prior: seq<string>)
      reads this, reader, reader.pre, reader.post, reader.scanner
    {
      s.Valid() && reader.Valid() && !reader.pending && WindowOk(window)
      && 1 <= k <= |file| && reader.stream == file && reader.consumed == file[..k]
      && reader.pushed == prior + Before(file, k - 1, reader.n)
    }

    /** The line loop of searchFileContents: every line is checked, numbered
        from 1, then pushed as pre-context before the next is read; the last
        line is not pushed. */
    method ScanLines(path: string, first: string, ghost file: seq<string>) returns (r: Result<()>)
      requires s.Valid() && reader.Valid() && !reader.pending && WindowOk(window)
      requires reader.stream == file && reader.consumed == [first]
      modifies this, info, reader, reader.pre, reader.post, reader.scanner
      ensures reader.scanner == old(reader.scanner) && |file| > 0
      ensures r.Ok? ==> reader.Valid() && !reader.pending && reader.ahead == [] && WindowOk(window)
      ensures r.Ok? ==> checks == old(checks) + Numbered(file, |file|, reader.n, old(reader.pushed))
      ensures r.Ok? ==> reader.pushed == old(reader.pushed) + Before(file, |file| - 1, reader.n)
      ensures r.Ok? ==> matchCount == old(matchCount) + CountCounted(file, |file|, s)
      ensures dirsRead == old(dirsRead) && filesRead == old(filesRead)
    {
      hide Settings.Valid, SearchTerms.Valid, ContextReader.Valid, Numbered, CountCounted, Before, Counted, LineMatch;
      s.TermsValid();
      reader.ConsumedIsPrefix();
      ghost var prior := reader.pushed;
      NumberedStep(file, 0, reader.n, prior);
      CountStep(file, 0, s);
      BeforeStep(file, 0, reader.n);
      assert AtLine(file, 1, prior);
      ghost var sc := reader.scanner;
      var text := first;
      var lineNumber := 1;
      while true
        invariant 1 <= lineNumber <= |file| && AtLine(file, lineNumber, prior) && text == file[lineNumber - 1]
        invariant reader.scanner == sc
        invariant checks == old(checks) + Numbered(file, lineNumber - 1, reader.n, prior)
        invariant matchCount == old(matchCount) + CountCounted(file, lineNumber - 1, s)
        invariant dirsRead == old(dirsRead) && filesRead == old(filesRead)
        decreases |file| - lineNumber
      {
        NumberedStep(file, lineNumber - 1, reader.n, prior);
        CountStep(file, lineNumber - 1, s);
        var c, done, next := ScanLine(path, text, lineNumber, file, prior);
        if c.Fail? {
          return c;
        }
        if done {
          return Ok(());
        }
        text := next;
        lineNumber := lineNumber + 1;
      }
    }

    /** One turn of the line loop: the line is checked; if the file has more,
        the line is pushed as pre-context and the next one read. */
    method ScanLine(path: string, text: string, lineNumber: int, ghost file: seq<string>, ghost prior: seq<string>)
      returns (r: Result<()>, done: bool, next: string)
      requires 1 <= lineNumber <= |file| && AtLine(file, lineNumber, prior) && text == file[lineNumber - 1]
      modifies this, info, reader, reader.pre, reader.post, reader.scanner
      ensures reader.scanner == old(reader.scanner) && |file| > 0
      ensures checks == old(checks) + [Check(lineNumber, text, prior + Before(file, lineNumber - 1, reader.n))]
      ensures matchCount == old(matchCount) + (if Counted(text, s) then 1 else 0)
      ensures dirsRead == old(dirsRead) && filesRead == old(filesRead)
      ensures r.Ok? && done ==> lineNumber == |file| && reader.Valid() && !reader.pending && reader.ahead == [] && WindowOk(window)
      ensures r.Ok? && done ==> reader.pushed == old(reader.pushed)
      ensures r.Ok? && !done ==> lineNumber < |file| && next == file[lineNumber] && AtLine(file, lineNumber + 1, prior)
    {
      hide Settings.Valid, SearchTerms.Valid, ContextReader.Valid, Numbered, CountCounted, Counted, LineMatch;
      checks := checks + [Check(lineNumber, text, reader.pushed)];
      next := text;
      var c := CheckLine(text, lineNumber, path);
      if c.Fail? {
        return Fail(c.message), true, next;
      }
      var more := reader.HasNextLineInFileOrCache();
      if !more {
        reader.AheadIsNext();
        return Ok(()), true, next;
      }
      BeforeStep(file, lineNumber - 1, reader.n);
      reader.PushToPreContextLines(text);
      next := reader.GetNextLineFromFileOrCache();
      reader.ConsumedIsPrefix();
      assert file[..lineNumber + 1] == file[..lineNumber] + [file[lineNumber]];
      return Ok(()), false, next;
    }

    /** checkPrintLineMatch as the line loop sees it: the reader keeps its
        place in the file and the count grows by the line's verdict. */
    method CheckLine(text: string, lineNumber: int, path: string) returns (r: Result<bool>)
      requires s.Valid() && reader.Valid() && !reader.pending && WindowOk(window)
      modifies this, info, reader, reader.post, reader.scanner
      ensures reader.Valid() && !reader.pending && WindowOk(window)
      ensures matchCount == old(matchCount) + (if Counted(text, s) then 1 else 0)
      ensures reader.consumed == old(reader.consumed) && reader.stream == old(reader.stream)
      ensures reader.pushed == old(reader.pushed) && reader.scanner == old(reader.scanner)
      ensures dirsRead == old(dirsRead) && filesRead == old(filesRead) && checks == old(checks)
    {
      hide *;
      r := CheckPrintLineMatch(text, lineNumber, path);
    }

    /** searchFileContents: the file is set for scanning (the pre-context
        ring keeps what earlier files pushed), an empty file ends at once, a binary first line ends the
        file unless binary files are searched, and otherwise the file is
        counted by name only or scanned line by line. */
    method SearchFileContents(path: string, file: seq<string>) returns (r: Result<()>)
      requires Valid()
      modifies this, info, reader, reader.pre, reader.post, reader.scanner
      ensures r.Ok? ==> Valid()
      ensures r.Ok? ==> checks == old(checks) + FileChecks(file, reader.n, s, old(reader.pushed))
      ensures r.Ok? ==> reader.pushed == old(reader.pushed) + FilePushed(file, reader.n, s)
      ensures r.Ok? ==> matchCount == old(matchCount) + FileMatchCount(file, s)
      ensures s.showFileNamesOnly ==>
                var o := FileNameOnlyText(file, path, s);
                (r.Ok? <==> o.Ok?) && (o.Ok? ==> out == old(out) + o.value)
      ensures dirsRead == old(dirsRead) && filesRead == old(filesRead)
      ensures fresh(reader.scanner)
    {
      hide Settings.Valid, SearchTerms.Valid, ContextReader.Valid;
      hide FileChecks, FilePushed, FileMatchCount, FileNameOnlyText, Numbered, CountCounted, CountMatching;
      hide FileNameOnlyOutput, HasControl, Before;
      Unpack();
      FileCases(file, path, reader.n, s, reader.pushed);
      reader.SetFileForScanning(file);
      assert reader.stream == file;
      var more := reader.HasNextLineInFileOrCache();
      if !more {
        return Ok(());
      }
      var first := reader.GetNextLineFromFileOrCache();
      var binary := HasControlCharacters(first);
      reader.ConsumedIsPrefix();
      assert first == file[0];
      if !s.searchBinaryFiles && binary {
        return Ok(());
      }
      if s.showFileNamesOnly {
        r := SearchFileContentsForFileNameOnly(path, first, file);
        return;
      }
      r := ScanLines(path, first, file);
    }

    /** visitFileOrDir: the entry is counted as a directory or a file; -la
        prints its path and nothing else; otherwise its name is searched
        unless -c, and a file's contents unless -n. A file that cannot be
        opened is skipped. */
    method VisitFileOrDir(node: Node) returns (r: Result<()>)
      requires Valid()
      modifies this, info, reader, reader.pre, reader.post, reader.scanner
      ensures dirsRead == old(dirsRead) + (if node.entry.isDir then 1 else 0)
      ensures filesRead == old(filesRead) + (if node.entry.isDir then 0 else 1)
      ensures s.listAll ==> r == Ok(()) && out == old(out) + Chars(node.path + s.newLine)
      ensures r.Ok? ==> Valid()
      ensures r.Ok? ==> matchCount == old(matchCount) + VisitCount(node.entry, s)
      ensures r.Ok? ==> checks == old(checks) + VisitChecks(node.entry, reader.n, s, old(reader.pushed))
      ensures r.Ok? ==> reader.pushed == old(reader.pushed) + VisitPushed(node.entry, reader.n, s)
      ensures reader.scanner == old(reader.scanner) || fresh(reader.scanner)
    {
      hide Settings.Valid, SearchTerms.Valid, ContextReader.Valid, Counted, LineMatch, NameOutput, FileMatchCount, FileChecks;
      hide FilePushed;
      var isDir := node.entry.isDir;
      if isDir {
        dirsRead := dirsRead + 1;
      } else {
        filesRead := filesRead + 1;
      }
      if s.listAll {
        out := out + Chars(node.path + s.newLine);
        return Ok(());
      }
      if !s.contentsOnly {
        SearchPathName(node.path, BaseName(node.entry), isDir);
      }
      if !isDir && !s.namesOnly && node.entry.lines.Some? {
        r := SearchFileContents(node.path, node.entry.lines.value);
        return;
      }
      return Ok(());
    }

    /** searchDir with its visits: the walk of the start directory, every
        visited node in walk order; a failing visit ends the search. */
    method Search(start: Option<Entry>, dir: string, w: WalkOptions) returns (r: Result<()>)
      requires Valid()
      modifies this, info, reader, reader.pre, reader.post, reader.scanner
      ensures start.None? ==> r.Fail?
      ensures start.Some? && r.Ok? ==>
                var nodes := Tree(Node(start.value, -1, dir), w);
                && matchCount == old(matchCount) + TotalCount(nodes, s)
                && checks == old(checks) + AllChecks(nodes, reader.n, s, old(reader.pushed))
                && reader.pushed == old(reader.pushed) + AllPushed(nodes, reader.n, s)
                && dirsRead == old(dirsRead) + DirCount(nodes)
                && filesRead == old(filesRead) + (|nodes| - DirCount(nodes))
      ensures start.Some? && s.listAll ==> r.Ok? && out == old(out) + Listing(Tree(Node(start.value, -1, dir), w), s.newLine)
    {
      hide *;
      Unpack();
      var walk := SearchDir(start, dir, w);
      if walk.Fail? {
        return Fail(walk.message);
      }
      var nodes := walk.value;
      ghost var prior := reader.pushed;
      VisitStep(nodes, 0, reader.n, s, prior);
      var i := 0;
      while i < |nodes|
        invariant 0 <= i <= |nodes| && Valid()
        invariant reader.scanner == old(reader.scanner) || fresh(reader.scanner)
        invariant matchCount == old(matchCount) + TotalCount(nodes[..i], s)
        invariant checks == old(checks) + AllChecks(nodes[..i], reader.n, s, prior)
        invariant reader.pushed == prior + AllPushed(nodes[..i], reader.n, s)
        invariant dirsRead == old(dirsRead) + DirCount(nodes[..i])
        invariant filesRead == old(filesRead) + (i - DirCount(nodes[..i]))
        invariant s.listAll ==> out == old(out) + Listing(nodes[..i], s.newLine)
      {
        VisitStep(nodes, i, reader.n, s, prior);
        r := VisitFileOrDir(nodes[i]);
        if r.Fail? {
          return;
        }
        i := i + 1;
      }
      assert nodes[..i] == nodes;
      return Ok(());
    }
  }
}
