# findfile search-and-render core in Dafny

This project models the core of `ff`, the findfile command-line searcher. The
model covers these parts:

- **Search terms.** The search strings are prepared: duplicates are collapsed
  into distinct terms, each with a minimum count, and the exclusion list is
  split on `;`.
- **Exact matching.** Terms are searched in a line's code points. A match can
  be limited to whole words, several terms are combined with AND, and
  exclusion terms reject a line. The spans found are recorded.
- **The walk.** Directories are walked depth-first with an explicit stack.
- **Scanning.** Every file is scanned line by line. A ring of pre-context
  lines and a ring of post-context (read-ahead) lines are kept beside the scan.
- **Output.** A matching line is rendered in these steps:
  1. highlight markers are inserted;
  2. tabs are expanded;
  3. control characters are handled;
  4. the line is cut to a window of context columns;
  5. the context lines are assembled around it;
  6. the result is written through the `%`-escape output format.
- **Smaller pieces.**
  - The argument tokenizer and option parser.
  - The config-file merge, unset and writer.
  - The highlight-colour nest counter.
  - Digit grouping.
  - The help text's word wrapper.

One Dafny module stands for each Go source file, or for a well-separated part
of one:

- `Wrappers`: the `Option` and `Result` types
- `Util`: `ff/util.go`
- `Matching`: `ff/matching.go`
- `MatchRecord`: the `currentLineMatchIndexInfo` record of `ff/matching.go`, as a class
- `Format`: the format compiler and the writer of `ff/format.go`
- `Decorate`: `insertMatchDecorations`
- `Transform`: tabs, control characters and context columns
- `ContextIO`: `ff/contextio.go`, as a class over two arrays
- `Output`: `transformOutputLine` and `writePathNameOutputLine`
- `Traversal`: `searchDir`
- `Scan`: the per-entry and per-line search of `ff/findfile.go`, as a class holding the global counters
- `Arguments`: `ff/arguments.go`
- `Config`: `ff/config.go`
- `Coloring`: `ff/coloring.go`, as a class holding the nest level
- `Help`: `lineWrap` and `optionsToFlagsArray` of `ff/help.go`

The model follows the source's own form:

- Imperative code (loops, global variables updated in place) becomes methods
  with loop invariants, or classes whose fields stand for the globals. Each
  such method is proved against a specification function.
- The properties are proved about those functions.

Each operation has a partner, which is one of:

- an inverse: `Compile` and `Show`, `CodePoints` and `IntsToString`,
  `SplitArguments` and the config writer (the corrected writer for every
  option string; the writer as written for the strings it gets right);
- a reference definition: `IndexOf`, `DistinctTerms`, `GroupThousands`,
  `Tree`/`Forest` for the walk;
- an invariant that the class keeps: `InSync` for the colour, `Valid` for
  the rings.

### Conventions

- **Strings and code points.** A string is `seq<char>` (Unicode scalar values).
  Go's `len` on a string is its UTF-8 byte length, `Util.ByteLen`.
- **Markers.** Output lines are token sequences `Char(c) | Begin | End`
  rather than ints with negative markers. `Coloring` alone keeps the ints
  -1 and -2, because `putIntArrayWithColors` works on them.
- **Panics and `exit(1)`.** These become `Fail(message)` results, with the
  source's own message text. Where the source appends a debug dump of the
  line or an operating-system error to the text, only the fixed part and
  the values the model has are kept.
- **Libraries outside the model become parameters.** These are:
  - `filepath.Match` (`globMatch`);
  - `unicode.ToLower` (`lowerRune`);
  - `isNonWordChar`, which is built on Unicode category tables (`nonWord`);
  - the option table built by `initFlagToOptionMap` (`OptionTable`).
- **The file system and the line scanner.** The file system is a tree of
  entries (`Traversal.Entry`). `bufio.Scanner` is a sequence of lines with a
  cursor (`ContextIO.Scanner`).
- **Two versions in one snapshot.** `ff/findfile.go` holds an older copy of
  several functions that also live in `ff/matching.go` and `ff/format.go`.
  - Matching and output follow the newer files.
  - Traversal and the scan loops follow `ff/findfile.go` as written,
    including the pre-context ring kept across files and the case-folded
    line printed under -i without decorations.
  - The older `insertMatchDecorations` is `Decorate.DecoratedOlder`.
  - The older `calculateContextColumns` is `Transform.ContextColumnsOld`.

### Reproduced as written

These behaviours of the source are kept in the model rather than corrected:

- **Control characters empty the line.** `replaceControlCharacters` copies into
  a zero-length slice (ff/format.go:668-670), so a line holding a control
  character comes back empty. This is `Transform.ReplaceControl`, shown by
  `Transform.ControlLineEmptied`. `Transform.ScrubControl` states the
  behaviour the comment at ff/format.go:675 describes. It is proved beside
  `ReplaceControl` but not used by the pipeline.
- **Decorations use byte offsets.** `insertMatchDecorations` compares byte
  offsets (`range line`) with spans counted in code points.
  - `Decorate.Decorated` keeps the byte offsets.
  - Its balance properties are proved for ASCII lines.
  - `Decorate.NonAsciiUnbalanced` shows an End with no Begin on `"éxy"`.
  - `Decorate.DecoratedByIndexBalanced` proves balance when positions count
    code points.
- **The cheap matcher ignores counts.** The cheap boolean matcher
  (`isMatchingIntArray`) does not look at the duplicate counts.
  - `Matching.DuplicateTermsDisagree` shows the difference.
  - `Matching.CheapAgreesWithFullInfo` proves that the two agree when every
    count is 1.
- **Mismatches in the tokenizer and the config code.**
  - **Backslashes outside quotes.** A token made only of backslashes is not
    ended by white space, because the backslash branch of
    `splitArgumentsString` does not start a token.
  - **Quote inside quotes.** An escaped `\"` inside quotes puts a quote
    character into the token.
  - **Unterminated quote.** An unterminated quote with an empty buffer is
    accepted.
  - **Functions that are not in the package.** `ff/config.go` calls
    `getOptionByFlag` and `getDefinition`, which `ff` does not declare. They
    are modelled as the option look-up by flag (`Arguments.LookupOption`)
    and the option's name.
  - **A shared name.** Two options share the name `exclude`, so they share one
    key of the config map.

## Model

| member | source | states |
|---|---|---|
| Util.SelectString | ff/util.go:38-43 | the result is `trueString` when `which` holds and `falseString` otherwise |
| Util.ByteLen | ff/util.go:82 | Go's `len` of a string: at least one byte per code point |
| Util.AsciiByteLen | ff/util.go:82 | on ASCII text the byte length equals the number of code points |
| Util.Utf8Width | ff/util.go:82 | a rune takes one to four bytes, and one exactly when it is ASCII |
| Util.CodePoints | ff/util.go:61-63 | one element per rune, holding that rune's value |
| Util.Digits | ff/util.go:81 | at least one character, every one a decimal digit |
| Util.AppendStringToIntArray | ff/util.go:65-70 | the prefix is kept, and the string's code points follow it in order |
| Util.StringToIntArray | ff/util.go:61-63 | the result is the string's code points, one per rune |
| Util.IntArrayToString | ff/util.go:45-51 | one rune per element: the element itself when it is a scalar value, U+FFFD otherwise |
| Util.StringRoundTrip | ff/util.go:45-63 | converting a string to code points and back gives the string again |
| Util.Decimal | ff/util.go:81 | `FormatInt`: the digits of the magnitude, with a minus sign exactly for negative numbers |
| Util.AddCommasToInt | ff/util.go:80-99 | decimals of at most three characters are unchanged; otherwise the loop's comma placement, which for n >= 0 is the grouping by threes from the right |
| Util.GroupThousandsRemoveCommas | ff/util.go:86-97 | grouping only inserts commas: deleting them gives the digits back |
| Util.CommaPrefixGroups | ff/util.go:86-97 | the left-to-right loop agrees with the right-to-left grouping by threes |
| Util.CommaPrefixLastGroup | ff/util.go:86-97 | a string longer than three gets one comma before its last three runes |
| Util.AddCommasNegativeThreeDigits | ff/util.go:80-99 | as written, -123 is printed as "-,123" |
| Util.AddCommasSigned | ff/util.go:80-99 | corrected grouping: removing the commas gives `FormatInt`, and no comma follows the minus sign |
| Matching.DistinctTermsSpec | ff/matching.go:100-120 | the distinct terms are exactly the non-empty inputs, each listed once |
| Matching.CountsAddUp | ff/matching.go:100-120 | the per-term counts add up to the number of non-empty search strings |
| Matching.DeduplicateSearchStrings | ff/matching.go:100-120 | the nested loop yields the distinct terms in first-occurrence order, each count being the term's number of copies (at least 1) |
| Matching.BlankLaterCopies | ff/matching.go:108-117 | the inner loop counts the copies of `ss[i]` and blanks exactly the later ones |
| Matching.ToLower | ff/matching.go:94 | case folding maps rune by rune and keeps the length |
| Matching.TrimSpaceSpec | ff/matching.go:150 | trimming keeps only characters of the input and is empty exactly for an all-space input |
| Matching.SplitNoDelimiter | ff/matching.go:147 | no piece of `strings.Split` contains the separator |
| Matching.JoinSplit | ff/matching.go:147 | joining the pieces with the separator gives the input back |
| Matching.TrimmedNonEmptySpec | ff/matching.go:149-156 | every kept piece is non-empty, trimmed and free of the separator |
| Matching.SplitAndTrim | ff/matching.go:146-158 | the result is the trimmed non-empty pieces of the split, in order; each is non-empty, separator-free, and neither starts nor ends with white space |
| Matching.ShouldIncludeByNameFilters | ff/matching.go:241-271 | an include match admits; otherwise an exclude match rejects; otherwise the name is admitted iff there are no include globs |
| Matching.ShouldIncludeFileByNameFilters | ff/matching.go:241-255 | the file verdict is the shared precedence over the file globs |
| Matching.ShouldIncludeDirByNameFilters | ff/matching.go:257-271 | the dir verdict is the shared precedence over the dir globs |
| Matching.FiltersIndependent | ff/matching.go:241-271 | the file verdict ignores the dir globs and the dir verdict ignores the file globs |
| Matching.ControlCharacterSet | ff/matching.go:277-279 | a control character is exactly one of 0-8, 11, 12, 14-31 and 127 |
| Matching.IntArrayHasControlCharacters | ff/matching.go:298-305 | true iff some element is in the control-character set |
| Matching.IndexOf | ff/matching.go:544-556 | -1, or an index at or after `start` where the term fits in the line |
| Matching.IndexOfOccurs | ff/matching.go:544-556 | what IndexOf finds is an occurrence of the term |
| Matching.IndexOfFirst | ff/matching.go:544-556 | there is no occurrence between `start` and the found index, and none at all when the answer is -1 |
| Matching.IntArrayIndexOf | ff/matching.go:544-556 | the labelled double loop returns exactly IndexOf |
| Matching.PrepareSearchString | ff/matching.go:78-144 | under -la nothing is prepared and the terms stay empty; otherwise no search strings is a fatal error, and the terms are the distinct (case-folded) strings as code points with their counts, and the exclusions are the trimmed `;`-pieces, empty when the option is empty |
| Matching.TermSpansSound | ff/matching.go:437-482 | every span recorded for a term is an accepted occurrence at or after the start |
| Matching.TermSpansOrdered | ff/matching.go:437-482 | the spans of one term are increasing and do not overlap, since the scan resumes at each span's end |
| Matching.TermSpansStep | ff/matching.go:438-481 | an occurrence is recorded when accepted, and the scan resumes at its end either way |
| Matching.TermSpansNonEmpty | ff/matching.go:437-482 | without whole-word mode a term has a span iff it occurs |
| Matching.HasAcceptedSpans | ff/matching.go:437-482 | a term records a span iff it has an accepted occurrence |
| Matching.MatchTermsMatched | ff/matching.go:434-485 | the term loop matches iff every term from `k` on reaches its count |
| Matching.ExactMatch | ff/matching.go:427-486 | when an exclusion term occurs, the result is unmatched with no spans |
| Matching.ExactMatchSpec | ff/matching.go:427-486 | a line matches iff no exclusion term occurs and every term has at least its count of accepted occurrences |
| Matching.ExactMatchSound | ff/matching.go:427-486 | every span is an accepted occurrence `[b, b + len(term))` of a search term |
| Matching.MatchTermsSound | ff/matching.go:434-485 | every span the term loop records is an accepted occurrence of one of the terms |
| Matching.CheapAgreesWithFullInfo | ff/matching.go:488-542 | the cheap and the full-info verdicts agree when every count is 1 |
| Matching.FullInfoImpliesCheap | ff/matching.go:488-542 | a full-info match is always a cheap match |
| Matching.DuplicateTermsDisagree | ff/matching.go:495-542 | "ab" given twice against "ab": the full-info form fails and the cheap form matches |
| Matching.DuplicateTermsTwice | ff/matching.go:427-486 | "ab" given twice against "abab" matches with spans [0,2) and [2,4) |
| Matching.ScanTerm | ff/matching.go:496-535 | the per-term loop finds a raw occurrence in match-any mode, and an accepted occurrence otherwise |
| Matching.IsMatchingIntArray | ff/matching.go:495-542 | match-any: true iff some term occurs at all; match-all: true iff every term has an accepted occurrence |
| Matching.IsLineMatchingIntArray | ff/matching.go:488-493 | the cheap verdict: no exclusion term occurs, and every term has an accepted occurrence |
| Matching.IsLineMatching | ff/matching.go:328-343 | an empty line never matches; otherwise the cheap verdict of the (case-folded) line |
| Matching.MinBeginSpec | ff/matching.go:372-374 | the minimum is at most every begin index, and is either the initial value or one of them |
| MatchRecord.MatchInfo.Reset | ff/matching.go:358-363 | unmatched, `minIndex` is MaxInt32, no spans |
| MatchRecord.MatchInfo.AddMatchSpan | ff/matching.go:365-375 | appends exactly one span and lowers `minIndex` to the begin index when that is smaller |
| MatchRecord.MatchInfo.CollectTermSpans | ff/matching.go:435-482 | the record gains exactly the term's spans, and `enough` says whether there are at least the term's count of them |
| MatchRecord.MatchInfo.CollectAllTerms | ff/matching.go:434-485 | the record holds the verdict and spans of the term loop |
| MatchRecord.MatchInfo.GetMatchIndexesByExactMatch | ff/matching.go:427-486 | the record holds the verdict and the spans of ExactMatch, with `minIndex` the least begin index |
| MatchRecord.MatchInfo.IsLineMatchingWithFullInfo | ff/matching.go:345-356 | an empty line leaves the record alone and gives false; otherwise the record holds the line's match and the verdict is `matched` XOR `invertMatch` |
| MatchRecord.MatchInfo.CheckLineMatchFullInfo | ff/matching.go:311-326 | an empty line leaves the record alone; otherwise the record holds the (case-folded) line's match |
| Format.Chars | ff/util.go:65-70 | one `Char` token per code point, in order |
| Format.VisibleChars | ff/util.go:65-70 | dropping markers from a plain line gives its code points |
| Format.EscapeAction | ff/format.go:113-141 | an action exists exactly for the characters `% i p l c s n` |
| Format.PrepareOutputFormat | ff/format.go:86-151 | the loop with its `escape` flag compiles exactly as `Compile` |
| Format.CompileShow | ff/format.go:86-151 | every action sequence is what its own format text compiles to |
| Format.ShowCompile | ff/format.go:86-151 | a format string that compiles is given back by showing its actions |
| Format.LinesOnlyFormat | ff/format.go:77-78 | `%s%n` compiles to the line followed by the newline |
| Format.FormatErrors | ff/format.go:138-149 | a trailing `%` and an unknown escape are both rejected |
| Format.OutputFormatString | ff/format.go:76-83 | -0 wins over -1, which wins over a given format, which wins over the default |
| Format.PrepareOutput | ff/format.go:62-152 | the coloring and decoration flags are set; the file-names-only modes return early with nothing compiled; otherwise the phrase and the compiled format of the chosen format string |
| Format.InvertedHasNoDecorations | ff/format.go:64-66 | -v never decorates, and context columns decorate whenever -v is off |
| Format.RenderAppend | ff/format.go:158-165 | running a format in two parts writes the two outputs in turn |
| Format.WriteFormattedOutputLine | ff/format.go:158-165 | every compiled action runs, in order |
| Format.RenderPlainText | ff/format.go:103-110 | a format without `%` writes itself, whatever the line |
| Format.RenderLinesOnly | ff/format.go:77-78 | the lines-only format writes the line and then the newline |
| Decorate.SortInts | ff/format.go:206-207 | the sort gives a sorted permutation of its input |
| Decorate.BeginMarks | ff/format.go:253-261 | a Begin marker when coloring, then `[` when brackets are shown, and never an End |
| Decorate.EndMarks | ff/format.go:263-271 | `]` when brackets are shown, then an End marker when coloring, and never a Begin |
| Decorate.InsertMatchDecorations | ff/format.go:190-251 | the prefix followed by the decorated line |
| Decorate.WriteDecorated | ff/format.go:210-248 | the walk over the line and then the closing of every begin still open |
| Decorate.WalkLine | ff/format.go:212-242 | the loop ends in the state the walk specification reaches after the whole line |
| Decorate.WriteMarksAt | ff/format.go:214-239 | one marker for every sorted index from the cursor on that equals the position, and the cursor advances past them |
| Decorate.WalkedCounts | ff/format.go:212-242 | the markers written so far are counted by the two cursors |
| Decorate.DecorateCounts | ff/format.go:210-248 | one Begin per begin reached, one End per end reached or begin left open |
| Decorate.DecorateCountsOlder | ff/findfile.go:1132-1192 | in the older copy at most one End closes the line |
| Decorate.WalkedPassed | ff/format.go:212-242 | with one position per character, after `i` characters the begin cursor has passed exactly the begins below `i` |
| Decorate.DecoratedByIndexBalanced | ff/format.go:190-251 | counting positions in code points, Begin and End markers both number the spans |
| Decorate.DecoratedBalancedAscii | ff/format.go:190-251 | on ASCII lines Begin and End markers both number the spans |
| Decorate.DecoratedVisible | ff/format.go:190-251 | without brackets, deleting the markers gives the line's code points back |
| Decorate.DecoratedNoEmptyHighlight | ff/format.go:213-239 | ends are written before begins at a position, so no End directly follows a Begin |
| Decorate.NonAsciiUnbalanced | ff/format.go:212 | on "éxy" with span [1,2) the byte offsets write an End and no Begin |
| Decorate.OlderLeavesHighlightOpen | ff/findfile.go:1186-1189 | two spans ending at the end of "ab": the newer copy closes both, the older copy only one |
| Transform.TabFill | ff/format.go:642-654 | `-…->` of the tab's width when tabs are shown, that many spaces otherwise |
| Transform.AppendTab | ff/format.go:642-654 | the prefix followed by the tab's fill |
| Transform.IntArrayContainsTabs | ff/format.go:602-609 | true iff the line holds a tab |
| Transform.TransformTabsMethod | ff/format.go:611-640 | the in-place rewrite gives the tab expansion |
| Transform.ExpandedWithoutTabs | ff/format.go:612-614 | a line without tabs is returned unchanged |
| Transform.ExpandedTabsGone | ff/format.go:611-640 | expansion leaves no tab and keeps every marker in order |
| Transform.TransformTabsProperties | ff/format.go:611-640 | no tab is left, and the markers keep their order |
| Transform.ExpandedColumn | ff/format.go:618-637 | the column counts printed characters since the last tab stop, modulo the spacing |
| Transform.TabStop | ff/format.go:618-637 | right after a tab the printed width is at a tab stop |
| Transform.ReplaceControl | ff/format.go:660-683 | the line is kept with -show-control-chars or without control characters, and is emptied otherwise |
| Transform.ReplaceControlCharacters | ff/format.go:660-683 | the method gives the as-written result |
| Transform.ScrubControl | ff/format.go:672-680 | the scrubbing the loop means to do: every control character becomes a space |
| Transform.ScrubControlKeepsLine | ff/format.go:672-680 | scrubbing removes every control character and keeps the width and the markers |
| Transform.ControlLineEmptied | ff/format.go:668-670 | "a\x01" comes back empty as written, and as "a " when scrubbed |
| Transform.FindFirstIndex | ff/format.go:494-596 | the forward search returns the first index holding the value, or -1 |
| Transform.FindLastIndex | ff/format.go:494-596 | the backward search returns the last index holding the value, or -1 |
| Transform.MappingOfFacts | ff/format.go:364-392 | visible length is the number of characters; each token maps to its visible index; the first Begin and last End are recorded at their visible positions |
| Transform.CreateMapping | ff/format.go:364-392 | the mapping loop computes MappingOf for the line |
| Transform.CalculateContextColumns | ff/format.go:394-492 | the window computation gives ContextColumns |
| Transform.ContextColumnsShort | ff/format.go:394-492 | a line that fits is shown from column 0 to the width |
| Transform.ContextColumnsExtent | ff/format.go:394-492 | a highlighted extent at least as wide as the window becomes the window |
| Transform.ContextColumnsFits | ff/format.go:394-492 | any other window lies in the visible line and is exactly `width` wide |
| Transform.ContextColumnsCoverMatch | ff/format.go:394-492 | when decorations are expected, the window covers the extent from the first Begin to the last End |
| Transform.ContextColumnsFailure | ff/format.go:394-492 | decorations expected but a marker missing is a panic; undecorated lines get the first `width` columns |
| Transform.OldContextColumnsPanics | ff/findfile.go:1324-1405 | a long undecorated line panics in the older copy and gets columns [0,4) in the newer one |
| Transform.TruncationMark | ff/format.go:47 | the mark is three visible characters |
| Transform.TruncateToContextColumns | ff/format.go:494-596 | the rewrite gives Truncated |
| Transform.TruncatedWhole | ff/format.go:494-596 | a window from 0 to the end keeps the line; a window past the end leaves only "..." |
| Transform.TruncatedShape | ff/format.go:494-596 | the window's tokens, with "..." in front iff it starts after column 0 and behind iff it stops before the end |
| Transform.TruncatedPlain | ff/format.go:494-596 | on a line without markers the window `[begin, end)` is cut out exactly |
| Transform.TransformSingleOutputLine | ff/format.go:340-357 | tabs, then control characters, then the window, then truncation |
| Transform.SingleOutputLineNoColumns | ff/format.go:340-357 | no tab survives, and a line with neither tabs nor control characters is unchanged when no columns are asked for |
| ContextIO.AddToContextLineIndex | ff/contextio.go:100-108 | within range the result is a slot of the ring |
| ContextIO.AddToContextLineIndexIsModular | ff/contextio.go:100-108 | within range the step is `(index + delta) mod N` |
| ContextIO.Scanner.Scan | ff/contextio.go:90-92 | advances to the next line when there is one |
| ContextIO.ContextReader.constructor | ff/contextio.go:63-79 | both rings empty and the whole file ahead |
| ContextIO.ContextReader.SetFileForScanning | ff/contextio.go:85-87 | only the scanner changes: the pre-context still holds the previous file's lines |
| ContextIO.ContextReader.SetFileForScanningWithReset | ff/contextio.go:85-87 | corrected: the pre-context is emptied too |
| ContextIO.ContextReader.ClearPreContextLines | ff/contextio.go:157-164 | every pre slot becomes invalid, nothing else changes |
| ContextIO.ContextReader.HasNextLineInFile | ff/contextio.go:90-92 | scans the next file line |
| ContextIO.ContextReader.GetNextLineFromFile | ff/contextio.go:94-98 | the scanned line, with its bytes counted |
| ContextIO.ContextReader.GetContextLineByDelta | ff/contextio.go:110-125 | a panic exactly for delta 0 or beyond N, with the source's messages; otherwise the slot of the ring the delta names |
| ContextIO.ContextReader.PreContextByDelta | ff/contextio.go:110-125 | delta -j gives the j-th most recently pushed line, or an invalid slot when fewer were pushed |
| ContextIO.ContextReader.PostContextByDelta | ff/contextio.go:110-125 | delta +j gives the j-th line read ahead, or an invalid slot past the read-ahead |
| ContextIO.ContextReader.AheadIsNext | ff/contextio.go:141-187 | the read-ahead is the next part of the file, right after the lines handed out |
| ContextIO.ContextReader.HasNextLineInFileOrCache | ff/contextio.go:128-138 | true iff some line of the file is not handed out yet |
| ContextIO.ContextReader.GetNextLineFromFileOrCache | ff/contextio.go:141-155 | the next line of the file, from the read-ahead first; every line is handed out once |
| ContextIO.ContextReader.TakeFromCache | ff/contextio.go:146-152 | the start slot is taken, freed and the start advanced |
| ContextIO.ContextReader.PushToPreContextLines | ff/contextio.go:157-164 | the line is pushed, or nothing happens when N = 0 |
| ContextIO.ContextReader.FillPostContextLines | ff/contextio.go:166-187 | reads ahead until the ring is full or the file ends, keeping what was already ahead |
| ContextIO.ContextReader.ReadAhead | ff/contextio.go:173-180 | one line joins the read-ahead, or the file has ended |
| ContextIO.PreContextAfterFileSwitch | ff/contextio.go:85-87 | as written, after a scan of "w", "x" and a switch of files, delta -1 shows "w", the last line the scan pushed |
| ContextIO.PreContextAfterFileSwitchWithReset | ff/contextio.go:85-87 | with the reset, delta -1 is empty after the switch |
| Output.ContextColumnsWindowOk | ff/format.go:394-492 | the window stays well formed |
| Output.PlainLineTransforms | ff/format.go:340-357 | a context line never panics and leaves the window alone |
| Output.WriteContextEntry | ff/format.go:296-307 | one context line: its `N-j:-j: ` prefix, the transformed text, the newline |
| Output.PreShownFacts | ff/format.go:295-309 | the pre-context shows exactly the valid slots, oldest first |
| Output.LeadingValid | ff/format.go:322-326 | the post-context shows the leading valid slots and stops at the first invalid one |
| Output.PreBlockShows | ff/format.go:295-309 | the pre-context block is the valid slots in PreShown order |
| Output.PostBlockShows | ff/format.go:322-337 | the post-context block is the slots +1 … +k in order |
| Output.ContextBlockParts | ff/format.go:281-338 | the assembled output is the pre-context block, the matching line and the post-context block |
| Output.OutputLineWindowOk | ff/format.go:281-338 | the window transformOutputLine leaves stays well formed |
| Output.TransformOutputLine | ff/format.go:281-338 | the rings are read before and after the read-ahead, giving OutputLine |
| Output.WriteContextBlock | ff/format.go:290-337 | pre-context, the matching line, the read-ahead, then post-context |
| Output.FillAndWritePostContext | ff/format.go:318-337 | the read-ahead, then the post-context block |
| Output.WritePreContext | ff/format.go:294-309 | the pre-context loop writes PreBlock |
| Output.WritePostContext | ff/format.go:321-337 | the post-context loop writes PostBlock up to the first empty slot |
| Output.OutputLineWithoutContext | ff/format.go:283-288 | without context lines the output is the transformed matching line |
| Output.ContextTextNoColumns | ff/format.go:303-304 | without context columns a context line is its text with tabs expanded and control characters handled |
| Output.PadLeft | ff/format.go:172 | `%15v`: padded on the left with spaces to 15 characters |
| Output.WritePathNameOutputLine | ff/format.go:167-184 | the path, the path with its count, or the decorated name line through the format |
| Output.PathNameLinesOnly | ff/format.go:173-183 | in the lines-only format a name match shows the base name, the kind and the phrase |
| Traversal.KidsAdmitted | ff/findfile.go:606-631 | every pushed child passed the push test and is one level deeper |
| Traversal.ForestAppend | ff/findfile.go:583-633 | the walk of a forest is the walk of each part in turn |
| Traversal.TreeDepths | ff/findfile.go:592-594 | every node of a walk is within the depth limit |
| Traversal.TreePushable | ff/findfile.go:612-630 | every visited node is no link, not the output file, and admitted by the name filters |
| Traversal.SearchDir | ff/findfile.go:573-634 | a start that cannot be stat'ed is fatal, with the directory in the message; otherwise the visits are the pre-order walk of the start |
| Traversal.PopStep | ff/findfile.go:583-590 | the top of the stack is visited and its children take its place |
| Traversal.PushChildren | ff/findfile.go:606-632 | the admitted children are pushed last-listed first, so the first listed is on top |
| Traversal.PushChild | ff/findfile.go:608-631 | one child is pushed exactly when it passes the push test |
| Traversal.SearchDirVisits | ff/findfile.go:573-634 | the start is expanded but never visited, every visit is within the depth limit, and every visit passed the push test |
| Scan.PrintedLineShowsText | ff/findfile.go:915-919 | corrected: without brackets the printed line shows the text as read |
| Scan.CaseFoldedLinePrinted | ff/findfile.go:915-919 | as written, -i without decorations prints "A" as "a" |
| Scan.NumberedSpec | ff/findfile.go:812-819 | the i-th check is line i + 1; its pre-context is what earlier files pushed followed by every earlier line of the file |
| Scan.FirstLineCarriesPrior | ff/findfile.go:792 | a scanned file's first line is checked with the lines earlier files pushed as its pre-context |
| Scan.CountMatchingPositive | ff/findfile.go:827-839 | the count is positive iff some line matches |
| Scan.CountCountedPositive | ff/findfile.go:897-911 | a file's count is positive iff some line is counted |
| Scan.FileNameOnlyOutputListed | ff/findfile.go:841-856 | a file is listed iff `count > 0` differs from -v |
| Scan.FileNameOnlyListed | ff/findfile.go:823-857 | without -v a file is listed iff a line matches; with -v iff none does |
| Scan.FileCases | ff/findfile.go:782-820 | an empty or binary file gives nothing; otherwise names-only or line-by-line |
| Scan.BaseName | ff/findfile.go:726 | `filepath.Base` of a non-empty name is that name, and never empty |
| Scan.NameOutputIsPathNameLine | ff/findfile.go:738-745 | searchPathName writes what writePathNameOutputLine's last branch writes |
| Scan.HasControlCharacters | ff/findfile.go:756-763 | true iff some code point of the line is a control character |
| Scan.Searcher.CheckPrintLineMatch | ff/findfile.go:897-926 | the count grows by 1 iff the line is counted (not empty, verdict differs from -v), and only then is the line written: decorated when decorations are on, else the (case-folded) code points the matcher scanned |
| Scan.Searcher.MatchLine | ff/findfile.go:898-909 | the line's match is recorded and compared with -v |
| Scan.Searcher.PrintMatchingLine | ff/findfile.go:913-925 | the line handed on is transformed and written through the format |
| Scan.Searcher.SearchPathName | ff/findfile.go:725-746 | the count grows by 1 iff the name is counted, and only then is the name line written |
| Scan.Searcher.SearchFileContentsForFileNameOnly | ff/findfile.go:823-857 | every line is counted; the file adds its count and is listed iff `count > 0` differs from -v |
| Scan.Searcher.CountFileMatches | ff/findfile.go:824-839 | the count is the number of matching lines |
| Scan.Searcher.CheckLine | ff/findfile.go:897-926 | the count grows by 1 iff the line is counted; the reader keeps its place in the file |
| Scan.Searcher.ScanLines | ff/findfile.go:812-819 | every line is checked, numbered from 1, with the pre-context it finds; every line but the last is then pushed |
| Scan.Searcher.ScanLine | ff/findfile.go:813-818 | one line checked with what was pushed before it, then pushed and the next read unless it was the last |
| Scan.Searcher.SearchFileContents | ff/findfile.go:782-820 | the pre-context is kept from earlier files; an empty file or a binary first line gives nothing; otherwise names-only counting or the numbered scan, which pushes every line but the last |
| Scan.Searcher.VisitFileOrDir | ff/findfile.go:695-719 | directories and files are counted; -la prints the path only; otherwise the name is matched and file contents scanned as the options say, the pre-context carried on |
| Scan.Searcher.Search | ff/findfile.go:573-634 | every node of the walk is visited in walk order, each file starting from the pre-context the files before it left; with -la the output is the listing of the walk |
| Arguments.CutIndexSpec | ff/arguments.go:411-428 | the cut is at a separator with none before it, and there is a cut iff Splits holds |
| Arguments.SplitOptionFlagAndValue | ff/arguments.go:411-428 | both separators: cut at the earlier; one: cut there if it is not first; none: `(s, "")` |
| Arguments.SplitAtEquals | ff/arguments.go:411-428 | a separator-free flag followed by `=` and a value is cut at that `=` |
| Arguments.SplitFlagAgain | ff/arguments.go:430-435 | the flag part is never cut again |
| Arguments.RuneByEscapeChar | ff/arguments.go:437-456 | the seven letters give their control characters and every other character stands for itself |
| Arguments.EscapeStringByRune | ff/arguments.go:458-477 | the seven control characters become their two-character escapes, every other character itself |
| Arguments.EscapeLetterRoundTrip | ff/arguments.go:437-477 | escaping the character a letter stands for gives back the backslash and the letter |
| Arguments.EscapeString | ff/arguments.go:479-485 | the buffer loop gives every character's escape in order |
| Arguments.EscapedSpec | ff/arguments.go:479-485 | no control character survives, a string without them is unchanged, and one with them gets longer |
| Arguments.SplitArgumentsString | ff/arguments.go:634-688 | the character loop and the end check give SplitArguments |
| Arguments.SplitPlainIsFields | ff/arguments.go:634-688 | a string without quotes and backslashes splits into its white-space separated fields |
| Arguments.QuoteFreeNeverFails | ff/arguments.go:679-685 | a string without quotes is never rejected |
| Arguments.QuotesNeverInTokens | ff/arguments.go:634-688 | without backslashes no token holds a quote character |
| Arguments.UnterminatedQuoteFails | ff/arguments.go:675-683 | any string that opens a quote outside quotes and escapes and ends inside it with a non-empty buffer is fatal, with the quote message |
| Arguments.UnterminatedEscapeFails | ff/arguments.go:675-679 | the same string ending in a backslash inside the quote is fatal, with the escape message |
| Arguments.QuoteOpenRun | ff/arguments.go:641-673 | after an opening quote, a run without quotes and backslashes is kept in the buffer, white space included |
| Arguments.BaseFlags | ff/arguments.go:395-396 | joining the flags with the bar separator gives the flag part of the option's flags |
| Arguments.SlashFlagSpec | ff/arguments.go:399-406 | only the empty flag has no slash variant; the variant is `/` plus the flag without its dashes |
| Arguments.AddAndGetWithSlashOptionFlags | ff/arguments.go:394-409 | the flags followed by their slash variants, one each in order; an empty flag panics |
| Arguments.Atoi | ff/arguments.go:609 | a parsed number lies in the 64-bit range |
| Arguments.AtoiDecimal | ff/arguments.go:609 | parsing gives back every number `Itoa` writes in the 64-bit range |
| Arguments.IntOptionRange | ff/arguments.go:318-331 | the range read from an int option's flags, with min <= max |
| Arguments.IntOptionRangeOfFlags | ff/arguments.go:318-331 | the range written into the flags is the range read back |
| Arguments.ParseAllStops | ff/arguments.go:557-632 | parsing stops at the first error |
| Arguments.BoolOptionRule | ff/arguments.go:593-602 | a bool option rejects a value, and otherwise toggles |
| Arguments.BoolOptionTwice | ff/arguments.go:593-602 | giving a bool option twice restores its value |
| Arguments.IntOptionRule | ff/arguments.go:604-617 | an int option needs a value that parses within its range, and then holds it |
| Arguments.StringOptionRule | ff/arguments.go:619-625 | a string option needs a non-empty value, and then holds it |
| Arguments.NonOptionRule | ff/arguments.go:564-571 | the first non-option ends the options where allowed, and is an error elsewhere |
| Arguments.AfterEndOfOptions | ff/arguments.go:559-562 | after the end of options every argument is collected as a search string |
| Arguments.ArgumentParser.AppendNonOptionArgument | ff/arguments.go:543-555 | empty arguments are ignored; with -S/-U set a search string is fatal; otherwise it is appended |
| Arguments.ArgumentParser.ParseAndSetArgument | ff/arguments.go:557-632 | the state changes exactly as ParseArgument says |
| Arguments.ArgumentParser.LoadArgumentsFromCommandLine | ff/arguments.go:858-863 | every command-line argument in turn, as ParseAll says |
| Config.OptionsMapSpec | ff/config.go:158-176 | the map holds exactly the known options' names, each with the last string naming it |
| Config.OptionsMapKeys | ff/config.go:158-176 | a name is a key of the map iff some known entry names it |
| Config.OptionsMapLast | ff/config.go:158-176 | each key holds the last entry naming it |
| Config.ReadConfigFileOptionsMap | ff/config.go:158-176 | a tokenizer error is returned; otherwise the map of the known entries |
| Config.MergeOne | ff/config.go:78-101 | the entry is stored under its name; the flag is raised unless the same non-empty string was stored |
| Config.MergedSpec | ff/config.go:78-101 | merging overrides the old map with the new options' map, and no change means the old map |
| Config.MergeOptions | ff/config.go:78-101 | the merge loop gives Merged |
| Config.UnsetOne | ff/config.go:137-151 | a stored option of the name is deleted and raises the flag; an absent one is ignored |
| Config.UnsettedSpec | ff/config.go:137-151 | exactly the named options are deleted, and the flag says whether one was present |
| Config.UnsetOptions | ff/config.go:137-151 | the removal loop gives Unsetted |
| Config.EscapeInQuotes | ff/config.go:192-200 | corrected: backslash and quote are escaped too |
| Config.WriteOptionsToConfigFile | ff/config.go:187-214 | the values in the map's key order, space separated, each quoted with `escapeString` iff it holds a space or a control character |
| Config.QuotedAllAsWritten | ff/config.go:195-202 | each option string as the writer as written puts it in the file |
| Config.WriteOptionsToConfigFileIfChanged | ff/config.go:178-185 | text is written iff the map changed |
| Config.QuotedRun | ff/config.go:192-200 | corrected: one option string written by the corrected writer is read back as one token |
| Config.WrittenRoundTrip | ff/config.go:187-214 | every list of non-empty strings written by the corrected writer reads back as the same list |
| Config.OptionsMapWellKeyed | ff/config.go:158-176 | maps read from a file are well keyed |
| Config.MergedWellKeyed | ff/config.go:78-101 | merging keeps a map well keyed |
| Config.OptionsMapOfValues | ff/config.go:158-214 | reading back the values of a well-keyed map, taken in a key order, gives the part of the map those keys cover |
| Config.ReadAfterWrite | ff/config.go:158-214 | what the corrected writer writes for a well-keyed map reads back as that map |
| Config.AsWrittenQuotes | ff/config.go:192-200 | as written, "-E=\\t x" is put between quotes unchanged |
| Config.AsWrittenMisreadsBackslash | ff/config.go:192-200 | as written, "-E=\\t x" reads back with a TAB |
| Config.QuotedAgreesAsWritten | ff/config.go:192-200 | the correction changes nothing for strings without backslashes or quotes |
| Config.QuotedAllAgrees | ff/config.go:195-202 | both writers quote option strings without backslashes, quotes and other white space the same way |
| Config.WrittenRoundTripAsWritten | ff/config.go:187-214 | option strings the writer as written gets right read back as the same list |
| Config.ReadAfterWriteAsWritten | ff/config.go:158-214 | a well-keyed map whose strings the writer as written gets right reads back as that map |
| Config.SetWritesMergedAsWritten | ff/config.go:78-105 | what -S writes reads back as the merged map when the writer as written gets its strings right |
| Config.FirstUnknownIndex | ff/arguments.go:901-910 | the first string naming no option, or the length |
| Config.FirstUnknownIndexAllKnown | ff/arguments.go:901-910 | the search runs off the end exactly when every string names an option |
| Config.LookupByFlag | ff/arguments.go:430-435 | looking an option up by its split-off flag finds the same option, and NameOf gives its name |
| Config.CheckForUnrecognizedOptions | ff/arguments.go:901-910 | accepted iff every string names an option; otherwise the message for the first one that does not |
| Config.FirstDisallowedIndex | ff/arguments.go:889-899 | the first string setting a disallowed option, or the length |
| Config.CheckForDisallowedConfigOptions | ff/arguments.go:889-899 | accepted iff no disallowed option is set; otherwise the message for the first |
| Config.SetConfigOptions | ff/config.go:38-106 | accepted iff the checks pass; no options is fatal; otherwise the merged map and its text as the writer as written writes it |
| Config.UnsetConfigOptions | ff/config.go:108-156 | a missing or empty file is fatal; otherwise the remaining map and its text as the writer as written writes it |
| Config.UnsetRemovesNamed | ff/config.go:137-155 | -U removes exactly the named options, rewriting iff one was stored |
| Config.SetWritesMerged | ff/config.go:78-105 | corrected: what the corrected writer writes for -S reads back as the merged map |
| Coloring.Push | ff/coloring.go:41-47 | the nest level grows by one |
| Coloring.Pop | ff/coloring.go:49-58 | a panic iff the level is 0; otherwise the level drops by one |
| Coloring.WalkLevel | ff/coloring.go:66-77 | the walk succeeds iff no prefix pops below zero, and ends at the start level plus the net nesting |
| Coloring.BalancedRestoresLevel | ff/coloring.go:66-77 | a balanced array prints without a panic and leaves the level as it was |
| Coloring.WalkPuts | ff/coloring.go:66-77 | exactly the array's code points are printed, in order, after what was sent before |
| Coloring.WalkInSync | ff/coloring.go:41-77 | the colour is on exactly while a highlight is open |
| Coloring.Colorizer.constructor | ff/coloring.go:39 | the nest level starts at 0, with nothing sent to the terminal |
| Coloring.Colorizer.PushColoring | ff/coloring.go:41-47 | the counter steps as Push, keeping the colour in sync |
| Coloring.Colorizer.PopColoring | ff/coloring.go:49-58 | the counter steps as Pop, failing with the underflow message at 0 |
| Coloring.Colorizer.ResetColoring | ff/coloring.go:60-64 | level 0 and the colour off |
| Coloring.Colorizer.PutIntArrayWithColors | ff/coloring.go:66-77 | the loop gives the walk, stopping at the first pop below 0 |
| Help.WrapShape | ff/help.go:123-141 | corrected: the output is the words in order, each preceded by its gap, and the column is one past the line |
| Help.WrapGaps | ff/help.go:128-131 | corrected: a separator goes before a word iff column plus word length exceeds the maximum, and no word is glued to the one before |
| Help.LineWrap | ff/help.go:123-141 | the loop gives the wrap as written of the space-split words |
| Help.LineFits | ff/help.go:123-141 | corrected: each line fits, unless it is one word that fits no line |
| Help.WrapJoined | ff/help.go:123-141 | corrected: words that fit are joined by single spaces, with no separator |
| Help.ShortLineUnchanged | ff/help.go:125-140 | corrected: a text that fits with a column to spare comes back unchanged |
| Help.WrapShapeAsWritten | ff/help.go:123-141 | the output is the words in order, each preceded by its gap; the column is one past the line before the first wrap and the line's length after it |
| Help.WrapGapsAsWritten | ff/help.go:128-131 | a separator goes before a word iff column plus word length exceeds the maximum; no gap iff it fits and the line is empty or one wrapped byte |
| Help.LineFitsAsWritten | ff/help.go:123-141 | a line passes the last column by at most one byte after a wrap and not at all before, unless it is one word that fits no line |
| Help.AgreeWithoutBreak | ff/help.go:128-131 | until the first wrap the wrapper as written and the corrected one agree |
| Help.WrapJoinedAsWritten | ff/help.go:123-141 | words that fit are joined by single spaces |
| Help.ShortLineUnchangedAsWritten | ff/help.go:125-140 | a text that fits with a column to spare comes back unchanged |
| Help.AsWrittenGluesWords | ff/help.go:128-131 | as written, "abc d e" at 4 becomes "abc\nde" |
| Help.CorrectedKeepsSpace | ff/help.go:128-131 | corrected, the same text keeps its space: "abc\nd e" |
| Help.FlagColumnsPlain | ff/help.go:108-117 | flags without a value are the flags joined by the bar separator |
| Help.FlagColumnsWithValue | ff/help.go:108-117 | a value placeholder becomes a column of its own |
| Help.OptionsToFlagsArray | ff/help.go:108-117 | one row of flag columns per option, in order |

## Left out

- I/O and the side-effect code of `ff/findfile.go` are not modelled. This
  covers:
  - output buffering and flushing (`ff/io.go`);
  - terminal detection;
  - opening files (a file that cannot be opened is one that yields no lines);
  - the `-o` output file's creation and the editor spawn;
  - timing;
  - signal handling (`trapControlC`, concurrency);
  - `main`.
- `ff/constants.go`, `initFlagToOptionMap` and the option definitions: the
  option table and the format strings are parameters.
- The argument loading glue has no model, because it reads the environment,
  the home directory and `os.Args` and prints. This covers `loadArguments`,
  `loadArgumentsFromConfigString`, `validateArguments`,
  `setBooleanOptionValue`, `printArguments`, `printArgumentsAsList` and
  `printNeatColumns`.
- `readConfigFile`: the file's contents are an input. As in the source, a read
  error gives the empty string.
- The home directory, `mkdir` and the file write of `setConfigOptions` and
  `unsetConfigOptions` are not modelled, and neither is the printing they do.
  The text to be written is the result.
- Regex mode is not modelled, because it is a library wrapper reporting byte
  offsets. This covers `getMatchIndexesByRegexMatch`, `isLineMatchingRegex`,
  `convertToRegexArray` and `prepareRegexMatching`.
- Library predicates are taken as parameters rather than modelled:
  - glob matching (`filepath.Match`);
  - the Unicode word classes (`isNonWordChar`);
  - `unicode.ToLower`.
- `prepareNameIncludeExcludeFilters` is left out, because the glob lists are
  inputs.
- The colour library calls (`hiColor.Set`, `color.Unset`, `putc`) are events
  of `Coloring.Event`. The terminal itself is not modelled.
- Help-text rendering (`getInfoText`, `printInfo`, `printMarkDownInfo`, the
  `transform*` regex helpers) is left out, because it is text built with
  library regexes.
- The map iteration order of `writeOptionsToConfigFile`: Go does not specify
  it. `Config.WriteOptionsToConfigFile` returns the order it used as a ghost
  value and promises only that it is an order of the map's keys.
- Util.AddCommasToInt: the input is an unbounded integer rather than an
  `int64`. `FormatInt`'s output is the same on the 64-bit range.
- Output.PlainLineTransforms: "never panics" holds for the model, where the
  mapping is computed afresh for each line. In the source a context line
  can reuse the matching line's cached mapping (ff/format.go:366-368,
  583-585), which this model does not capture.
- Traversal.SearchDir: the `os.Stat` error text printed after the directory
  is not part of the message, because the file system is a parameter.
- Help.WrapShape, Help.WrapGaps, Help.LineFits, Help.WrapJoined and
  Help.ShortLineUnchanged are proved of the corrected wrapper `Wrap`, not of
  the source. `LineWrap` follows the source (`WrapAsWritten`), whose
  properties are the `AsWritten` lemmas: its lines can pass the last column
  by one byte, and a word after a one-byte wrapped word is glued to it.
- Config.QuotedRun, Config.WrittenRoundTrip, Config.ReadAfterWrite and
  Config.SetWritesMerged are proved of the corrected writer. The source's
  writer (used by the -S and -U methods) reads back only option strings
  without backslashes, quotes or white space other than the space and the
  control characters (`Config.WritesBack`); `-E=a"b`, for one, is written
  unquoted.
- Transform.CreateMapping: the mapping is computed for the line it is given.
  The source caches it in a global that only `calculateContextColumns` clears
  (ff/format.go:366-368), so a context line can reuse the matching line's
  mapping. The cache is not modelled.
- Decorate.DecoratedBalancedAscii: balance is proved only for ASCII lines.
  Otherwise positions are byte offsets and the markers can be unbalanced
  (`Decorate.NonAsciiUnbalanced`).
- Scan.Searcher.CheckLine: this is the form of `checkPrintLineMatch` that the
  line loop uses. It states only the count, the reader's place and the
  window, not the text written. `Scan.Searcher.CheckPrintLineMatch` states
  the text.
- Scan.Searcher.Search: the text written is stated for the whole walk only
  under -la. Otherwise it is stated per line by `CheckPrintLineMatch` and
  per name by `SearchPathName`.
- Arguments.Atoi: only the decimal forms of `strconv.Atoi` are modelled.

## Findings

| source | as written | input that shows it | evidently intended | confidence | as-written member | corrected member |
|---|---|---|---|---|---|---|
| ff/util.go:80-99 | the comma loop counts the minus sign as a digit | -123 | "-123": the sign stays outside the digit groups | not executed | Util.AddCommasNegativeThreeDigits | Util.AddCommasSigned |
| ff/contextio.go:85-87 | switching files keeps the pre-context ring | a file "w", "x", then a file whose line 1 matches with -C 1: "w", the first file's second-to-last line, is shown before it | no pre-context before a file's first line | not executed | ContextIO.PreContextAfterFileSwitch | ContextIO.PreContextAfterFileSwitchWithReset |
| ff/findfile.go:915-919 | with -i and no decorations the printed line is the case-folded one the matcher scanned | "A" searched with -i and colours off | the line printed as read | not executed | Scan.CaseFoldedLinePrinted | Scan.PrintedLineShowsText |
| ff/config.go:192-200 | an option string is quoted with `escapeString`, which escapes neither `\` nor `"` | "-E=\\t x" | the string reads back unchanged | not executed | Config.AsWrittenMisreadsBackslash | Config.WrittenRoundTrip |
| ff/help.go:128-131 | after a wrap the column is set to the word's length, one short | "abc d e" with maxColumn 4 | "abc\nd e": the space before the next word is kept | not executed | Help.AsWrittenGluesWords | Help.CorrectedKeepsSpace |
