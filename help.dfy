/** The two computations of ff/help.go that are not text printing: the
    greedy word wrapper used for the long help, and the splitting of an
    option's flags string into the columns of the option list. */
module Help {
  import opened Util
  import opened Matching
  import opened Arguments

  // ---------------------------------------------------------------------
  // Byte lengths (len on a Go string)

  lemma {:induction false} ByteLenAppend(a: string, b: string)
    ensures ByteLen(a + b) == ByteLen(a) + ByteLen(b)
    decreases |a|
  {
    if a == [] {
      assert a + b == b;
    } else {
      assert (a + b)[1..] == a[1..] + b;
      ByteLenAppend(a[1..], b);
    }
  }

  lemma ByteLenSpace()
    ensures ByteLen(" ") == 1
  {
    assert " "[1..] == "";
  }

  // ---------------------------------------------------------------------
  // lineWrap

  /** The wrapper's state after some words: the text written, the column
      counter, and (for the proofs) the text of the current line and the
      gap written before each word. */
  datatype WrapState = WrapState(text: string, column: int, line: string, gaps: seq<Gap>)

  /** What lineWrap writes before a word. */
  datatype Gap = Nothing | OneSpace | LineBreak

  function GapText(g: Gap, lineSeparator: string): string
  {
    match g
    case Nothing => ""
    case OneSpace => " "
    case LineBreak => lineSeparator
  }

  const WrapStart := WrapState("", 1, "", [])

  /** One word of lineWrap, with the column after a wrap set to one past
      the word, as after the first word of the text. */
  function WrapStep(st: WrapState, word: string, lineSeparator: string, maxColumn: int): WrapState
  {
    if st.column + ByteLen(word) > maxColumn then
      WrapState(st.text + lineSeparator + word, 1 + ByteLen(word), word, st.gaps + [LineBreak])
    else if st.column > 1 then
      WrapState(st.text + " " + word, st.column + 1 + ByteLen(word), st.line + " " + word, st.gaps + [OneSpace])
    else
      WrapState(st.text + word, st.column + ByteLen(word), st.line + word, st.gaps + [Nothing])
  }

  function Wrap(words: seq<string>, lineSeparator: string, maxColumn: int): WrapState
    decreases |words|
  {
    if words == [] then WrapStart
    else WrapStep(Wrap(words[..|words| - 1], lineSeparator, maxColumn), words[|words| - 1], lineSeparator, maxColumn)
  }

  lemma WrapUnfold(words: seq<string>, lineSeparator: string, maxColumn: int)
    ensures words == [] ==> Wrap(words, lineSeparator, maxColumn) == WrapStart
    ensures words != [] ==>
              Wrap(words, lineSeparator, maxColumn)
              == WrapStep(Wrap(words[..|words| - 1], lineSeparator, maxColumn), words[|words| - 1], lineSeparator, maxColumn)
  {
  }

  /** The words, each preceded by its gap. */
  function Interleave(gaps: seq<Gap>, words: seq<string>, lineSeparator: string): string
    requires |gaps| == |words|
    decreases |words|
  {
    if words == [] then ""
    else
      Interleave(gaps[..|gaps| - 1], words[..|words| - 1], lineSeparator)
      + GapText(gaps[|gaps| - 1], lineSeparator) + words[|words| - 1]
  }

  /** The wrapped text is the words in order, each preceded by its gap,
      and the column is always one past the current line. */
  lemma {:induction false} WrapShape(words: seq<string>, lineSeparator: string, maxColumn: int)
    ensures var st := Wrap(words, lineSeparator, maxColumn);
            |st.gaps| == |words|
            && st.text == Interleave(st.gaps, words, lineSeparator)
            && st.column == 1 + ByteLen(st.line)
    decreases |words|
  {
    hide ByteLen;
    if words == [] {
      ByteLenEmpty();
    } else {
      var init := words[..|words| - 1];
      var w := words[|words| - 1];
      WrapShape(init, lineSeparator, maxColumn);
      var p := Wrap(init, lineSeparator, maxColumn);
      var st := Wrap(words, lineSeparator, maxColumn);
      assert st == WrapStep(p, w, lineSeparator, maxColumn);
      assert st.gaps[..|init|] == p.gaps;
      ByteLenAppend(p.line + " ", w);
      ByteLenAppend(p.line, " ");
      ByteLenAppend(p.line, w);
      ByteLenSpace();
    }
  }

  /** The separator comes exactly where the word would pass the last
      column, and nothing is glued: a word gets no gap only at the start of
      an empty line. */
  predicate GapRule(g: Gap, before: WrapState, word: string, maxColumn: int)
  {
    (g == LineBreak <==> before.column + ByteLen(word) > maxColumn)
    && (g == Nothing ==> before.line == "")
  }

  lemma StepGap(p: WrapState, w: string, lineSeparator: string, maxColumn: int)
    requires p.column == 1 + ByteLen(p.line)
    ensures var st := WrapStep(p, w, lineSeparator, maxColumn);
            |st.gaps| == |p.gaps| + 1 && st.gaps[..|p.gaps|] == p.gaps
            && GapRule(st.gaps[|p.gaps|], p, w, maxColumn)
  {
    if p.column <= 1 {
      ByteLenZero(p.line);
    }
  }

  /** Every gap of the wrapped text follows the rule, judged on the state
      before its word. */
  lemma {:induction false} WrapGaps(words: seq<string>, lineSeparator: string, maxColumn: int)
    ensures |Wrap(words, lineSeparator, maxColumn).gaps| == |words|
    ensures forall i :: 0 <= i < |words| ==>
              GapRule(Wrap(words, lineSeparator, maxColumn).gaps[i], Wrap(words[..i], lineSeparator, maxColumn),
                      words[i], maxColumn)
    decreases |words|
  {
    hide ByteLen, GapRule, WrapStep, Wrap;
    WrapUnfold(words, lineSeparator, maxColumn);
    if words != [] {
      var init := words[..|words| - 1];
      var w := words[|words| - 1];
      WrapGaps(init, lineSeparator, maxColumn);
      WrapShape(init, lineSeparator, maxColumn);
      var p := Wrap(init, lineSeparator, maxColumn);
      StepGap(p, w, lineSeparator, maxColumn);
      assert words[..|init|] == init;
      forall i | 0 <= i < |init|
        ensures words[..i] == init[..i] && words[i] == init[i]
      {
      }
    }
  }

  lemma ByteLenEmpty()
    ensures ByteLen("") == 0
  {
  }

  lemma ByteLenZero(s: string)
    requires ByteLen(s) <= 0
    ensures s == ""
  {
  }

  /** The current line is within the last column, unless it is a single
      word that does not fit on any line. */
  lemma {:induction false} LineFits(words: seq<string>, lineSeparator: string, maxColumn: int)
    requires words != []
    ensures var st := Wrap(words, lineSeparator, maxColumn);
            ByteLen(st.line) <= maxColumn || st.line == words[|words| - 1]
  {
    var init := words[..|words| - 1];
    WrapShape(init, lineSeparator, maxColumn);
    var p := Wrap(init, lineSeparator, maxColumn);
    var w := words[|words| - 1];
    ByteLenAppend(p.line + " ", w);
    ByteLenAppend(p.line, " ");
    ByteLenAppend(p.line, w);
    ByteLenSpace();
  }

  lemma {:induction false} JoinSnoc(p: seq<string>, w: string, d: char)
    requires p != []
    ensures Join(p + [w], d) == Join(p, d) + [d] + w
    decreases |p|
  {
    if |p| == 1 {
      assert (p + [w])[1..] == [w];
    } else {
      assert (p + [w])[1..] == p[1..] + [w];
      JoinSnoc(p[1..], w, d);
    }
  }

  lemma JoinOne(w: string, d: char)
    ensures Join([w], d) == w
  {
  }

  lemma JoinHead(p: seq<string>, d: char)
    requires p != []
    ensures |Join(p, d)| >= |p[0]|
  {
  }

  /** Words that fit on one line are written joined by single spaces,
      provided the first is not empty. */
  lemma {:induction false} WrapJoined(words: seq<string>, lineSeparator: string, maxColumn: int)
    requires words != [] && (|words| == 1 || words[0] != "")
    requires ByteLen(Join(words, ' ')) + 1 <= maxColumn
    ensures Wrap(words, lineSeparator, maxColumn).text == Join(words, ' ')
    ensures Wrap(words, lineSeparator, maxColumn).column == 1 + ByteLen(Join(words, ' '))
    ensures LineBreak !in Wrap(words, lineSeparator, maxColumn).gaps
    decreases |words|
  {
    hide ByteLen, Join;
    var init := words[..|words| - 1];
    var w := words[|words| - 1];
    if |words| == 1 {
      JoinOne(w, ' ');
      assert words == [w];
    } else {
      assert words == init + [w];
      JoinSnoc(init, w, ' ');
      ByteLenAppend(Join(init, ' ') + [' '], w);
      ByteLenAppend(Join(init, ' '), [' ']);
      ByteLenSpace();
      assert init[0] == words[0];
      WrapJoined(init, lineSeparator, maxColumn);
      JoinHead(init, ' ');
    }
  }

  /** A text without a leading space that fits in the last column with a
      column to spare comes back unchanged. */
  lemma ShortLineUnchanged(s: string, lineSeparator: string, maxColumn: int)
    requires ByteLen(s) + 1 <= maxColumn
    requires s == "" || s[0] != ' '
    ensures Wrap(Split(s, ' '), lineSeparator, maxColumn).text == s
  {
    hide Wrap, Join;
    var words := Split(s, ' ');
    JoinSplit(s, ' ');
    assert words[0] == s[..FirstIndexOf(s, ' ')];
    WrapJoined(words, lineSeparator, maxColumn);
  }

  /** lineWrap as written: after a wrap the column is set to the word's
      length, one less than after the same word at the start of the text. */
  function WrapStepAsWritten(st: WrapState, word: string, lineSeparator: string, maxColumn: int): WrapState
  {
    if st.column + ByteLen(word) > maxColumn then
      WrapState(st.text + lineSeparator + word, ByteLen(word), word, st.gaps + [LineBreak])
    else if st.column > 1 then
      WrapState(st.text + " " + word, st.column + 1 + ByteLen(word), st.line + " " + word, st.gaps + [OneSpace])
    else
      WrapState(st.text + word, st.column + ByteLen(word), st.line + word, st.gaps + [Nothing])
  }

  function WrapAsWritten(words: seq<string>, lineSeparator: string, maxColumn: int): WrapState
    decreases |words|
  {
    if words == [] then WrapStart
    else
      WrapStepAsWritten(WrapAsWritten(words[..|words| - 1], lineSeparator, maxColumn), words[|words| - 1],
                        lineSeparator, maxColumn)
  }

  /** lineWrap: the words of `s` (split at single spaces), each written
      after nothing, a space or the separator as the column counter
      decides; after a separator the counter is the word's length. */
  method LineWrap(s: string, lineSeparator: string, maxColumn: int) returns (r: string)
    ensures r == WrapAsWritten(Split(s, ' '), lineSeparator, maxColumn).text
  {
    var buffer := "";
    var column := 1;
    var words := Split(s, ' ');
    var i := 0;
    while i < |words|
      invariant 0 <= i <= |words|
      invariant buffer == WrapAsWritten(words[..i], lineSeparator, maxColumn).text
      invariant column == WrapAsWritten(words[..i], lineSeparator, maxColumn).column
    {
      assert words[..i + 1][..i] == words[..i];
      var word := words[i];
      if column + ByteLen(word) > maxColumn {
        buffer := buffer + lineSeparator;
        column := ByteLen(word);
      } else if column > 1 {
        buffer := buffer + " ";
        column := column + 1 + ByteLen(word);
      } else {
        column := column + ByteLen(word);
      }
      buffer := buffer + word;
      i := i + 1;
    }
    assert words[..i] == words;
    r := buffer;
  }

  /** As written, the text is still the words in order with their gaps;
      the column is one past the current line until the first wrap and
      equal to its length after it. */
  lemma {:induction false} WrapShapeAsWritten(words: seq<string>, lineSeparator: string, maxColumn: int)
    ensures var st := WrapAsWritten(words, lineSeparator, maxColumn);
            |st.gaps| == |words|
            && st.text == Interleave(st.gaps, words, lineSeparator)
            && st.column == ByteLen(st.line) + (if LineBreak in st.gaps then 0 else 1)
    decreases |words|
  {
    hide ByteLen, WrapStepAsWritten;
    if words == [] {
      ByteLenEmpty();
    } else {
      var init := words[..|words| - 1];
      var w := words[|words| - 1];
      WrapShapeAsWritten(init, lineSeparator, maxColumn);
      var p := WrapAsWritten(init, lineSeparator, maxColumn);
      StepShapeAsWritten(p, w, lineSeparator, maxColumn);
    }
  }

  /** One word keeps the shape of the text as written. */
  lemma StepShapeAsWritten(p: WrapState, w: string, lineSeparator: string, maxColumn: int)
    requires p.column == ByteLen(p.line) + (if LineBreak in p.gaps then 0 else 1)
    ensures var st := WrapStepAsWritten(p, w, lineSeparator, maxColumn);
            |st.gaps| == |p.gaps| + 1 && st.gaps[..|p.gaps|] == p.gaps
            && st.text == p.text + GapText(st.gaps[|p.gaps|], lineSeparator) + w
            && st.column == ByteLen(st.line) + (if LineBreak in st.gaps then 0 else 1)
  {
    hide ByteLen;
    var st := WrapStepAsWritten(p, w, lineSeparator, maxColumn);
    assert st.gaps == p.gaps + [st.gaps[|p.gaps|]];
    if st.gaps[|p.gaps|] == LineBreak {
      assert LineBreak in st.gaps;
    } else {
      assert LineBreak in st.gaps <==> LineBreak in p.gaps;
      ByteLenAppend(p.line + " ", w);
      ByteLenAppend(p.line, " ");
      ByteLenAppend(p.line, w);
      ByteLenSpace();
    }
  }

  /** The gap rule of the code as written: the separator still comes
      exactly where the word would pass the last column, but a word is
      written with no gap both at the start of the text and after a
      wrapped word of at most one byte. */
  predicate GapRuleAsWritten(g: Gap, before: WrapState, word: string, maxColumn: int)
  {
    (g == LineBreak <==> before.column + ByteLen(word) > maxColumn)
    && (g == Nothing <==>
          before.column + ByteLen(word) <= maxColumn
          && (before.line == "" || (LineBreak in before.gaps && ByteLen(before.line) <= 1)))
  }

  lemma StepGapAsWritten(p: WrapState, w: string, lineSeparator: string, maxColumn: int)
    requires p.column == ByteLen(p.line) + (if LineBreak in p.gaps then 0 else 1)
    ensures var st := WrapStepAsWritten(p, w, lineSeparator, maxColumn);
            |st.gaps| == |p.gaps| + 1 && st.gaps[..|p.gaps|] == p.gaps
            && GapRuleAsWritten(st.gaps[|p.gaps|], p, w, maxColumn)
  {
    if p.column <= 1 && LineBreak !in p.gaps {
      ByteLenZero(p.line);
    }
    if p.line == "" {
      ByteLenEmpty();
    }
  }

  /** Every gap of the text as written follows that rule, judged on the
      state before its word. */
  lemma {:induction false} WrapGapsAsWritten(words: seq<string>, lineSeparator: string, maxColumn: int)
    ensures |WrapAsWritten(words, lineSeparator, maxColumn).gaps| == |words|
    ensures forall i :: 0 <= i < |words| ==>
              GapRuleAsWritten(WrapAsWritten(words, lineSeparator, maxColumn).gaps[i],
                               WrapAsWritten(words[..i], lineSeparator, maxColumn), words[i], maxColumn)
    decreases |words|
  {
    hide ByteLen, GapRuleAsWritten, WrapStepAsWritten, WrapAsWritten;
    WrapAsWrittenUnfold(words, lineSeparator, maxColumn);
    if words != [] {
      var init := words[..|words| - 1];
      var w := words[|words| - 1];
      WrapGapsAsWritten(init, lineSeparator, maxColumn);
      WrapShapeAsWritten(init, lineSeparator, maxColumn);
      var p := WrapAsWritten(init, lineSeparator, maxColumn);
      StepGapAsWritten(p, w, lineSeparator, maxColumn);
      assert words[..|init|] == init;
      forall i | 0 <= i < |init|
        ensures words[..i] == init[..i] && words[i] == init[i]
      {
      }
    }
  }

  /** As written, the current line passes the last column by at most one
      byte after a wrap and not at all before, unless it is a single word
      that does not fit on any line. */
  lemma {:induction false} LineFitsAsWritten(words: seq<string>, lineSeparator: string, maxColumn: int)
    requires words != []
    ensures var st := WrapAsWritten(words, lineSeparator, maxColumn);
            ByteLen(st.line) <= maxColumn + (if LineBreak in st.gaps then 1 else 0)
            || st.line == words[|words| - 1]
  {
    var init := words[..|words| - 1];
    WrapShapeAsWritten(init, lineSeparator, maxColumn);
    var p := WrapAsWritten(init, lineSeparator, maxColumn);
    var w := words[|words| - 1];
    var st := WrapAsWritten(words, lineSeparator, maxColumn);
    assert st.gaps[..|init|] == p.gaps;
    assert LineBreak in p.gaps ==> LineBreak in st.gaps;
    ByteLenAppend(p.line + " ", w);
    ByteLenAppend(p.line, " ");
    ByteLenAppend(p.line, w);
    ByteLenSpace();
  }

  /** Until the first wrap the code as written and the corrected wrapper
      write the same text and keep the same state. */
  lemma {:induction false} AgreeWithoutBreak(words: seq<string>, lineSeparator: string, maxColumn: int)
    requires LineBreak !in Wrap(words, lineSeparator, maxColumn).gaps
    ensures WrapAsWritten(words, lineSeparator, maxColumn) == Wrap(words, lineSeparator, maxColumn)
    decreases |words|
  {
    if words != [] {
      var init := words[..|words| - 1];
      var p := Wrap(init, lineSeparator, maxColumn);
      var st := Wrap(words, lineSeparator, maxColumn);
      assert st.gaps[..|p.gaps|] == p.gaps;
      assert LineBreak !in p.gaps;
      AgreeWithoutBreak(init, lineSeparator, maxColumn);
    }
  }

  /** As written, too, words that fit on one line are written joined by
      single spaces, provided the first is not empty. */
  lemma WrapJoinedAsWritten(words: seq<string>, lineSeparator: string, maxColumn: int)
    requires words != [] && (|words| == 1 || words[0] != "")
    requires ByteLen(Join(words, ' ')) + 1 <= maxColumn
    ensures WrapAsWritten(words, lineSeparator, maxColumn).text == Join(words, ' ')
  {
    WrapJoined(words, lineSeparator, maxColumn);
    AgreeWithoutBreak(words, lineSeparator, maxColumn);
  }

  /** As written, a text without a leading space that fits in the last
      column with a column to spare comes back unchanged. */
  lemma ShortLineUnchangedAsWritten(s: string, lineSeparator: string, maxColumn: int)
    requires ByteLen(s) + 1 <= maxColumn
    requires s == "" || s[0] != ' '
    ensures WrapAsWritten(Split(s, ' '), lineSeparator, maxColumn).text == s
  {
    hide Wrap, WrapAsWritten, Join;
    var words := Split(s, ' ');
    JoinSplit(s, ' ');
    assert words[0] == s[..FirstIndexOf(s, ' ')];
    WrapJoined(words, lineSeparator, maxColumn);
    AgreeWithoutBreak(words, lineSeparator, maxColumn);
  }

  lemma WrapAsWrittenUnfold(words: seq<string>, lineSeparator: string, maxColumn: int)
    ensures words == [] ==> WrapAsWritten(words, lineSeparator, maxColumn) == WrapStart
    ensures words != [] ==>
              WrapAsWritten(words, lineSeparator, maxColumn)
              == WrapStepAsWritten(WrapAsWritten(words[..|words| - 1], lineSeparator, maxColumn), words[|words| - 1],
                                   lineSeparator, maxColumn)
  {
  }

  lemma SplitExample()
    ensures Split("abc d e", ' ') == ["abc", "d", "e"]
  {
    hide Split, FirstIndexOf;
    SplitAfter("abc", ' ', "d e");
    SplitAfter("d", ' ', "e");
    SplitNone("e", ' ');
    assert "abc d e" == "abc" + [' '] + "d e";
    assert "d e" == "d" + [' '] + "e";
  }

  lemma ByteLenExample()
    ensures ByteLen("abc") == 3 && ByteLen("d") == 1 && ByteLen("e") == 1
  {
    assert "abc"[1..] == "bc" && "bc"[1..] == "c" && "c"[1..] == "";
    assert "d"[1..] == "" && "e"[1..] == "";
  }

  /** As written, a one-letter word that wraps leaves the column at 1, so
      the next word is glued to it: "abc d e" wrapped at column 4 loses the
      space between d and e. */
  lemma AsWrittenGluesWords()
    ensures WrapAsWritten(Split("abc d e", ' '), "\n", 4).text == "abc\nde"
  {
    hide ByteLen, Split, WrapAsWritten;
    SplitExample();
    ByteLenExample();
    var ws := ["abc", "d", "e"];
    assert ws[..2] == ["abc", "d"] && ws[..2][..1] == ["abc"] && ws[..2][..1][..0] == [];
    WrapAsWrittenUnfold([], "\n", 4);
    WrapAsWrittenUnfold(["abc"], "\n", 4);
    WrapAsWrittenUnfold(["abc", "d"], "\n", 4);
    WrapAsWrittenUnfold(ws, "\n", 4);
    assert WrapAsWritten(["abc"], "\n", 4) == WrapState("abc", 4, "abc", [Nothing]);
    assert WrapAsWritten(["abc", "d"], "\n", 4) == WrapState("abc\nd", 1, "d", [Nothing, LineBreak]);
  }

  /** With the column set one past the word, the same text keeps its
      space. */
  lemma CorrectedKeepsSpace()
    ensures Wrap(Split("abc d e", ' '), "\n", 4).text == "abc\nd e"
  {
    hide ByteLen, Split, Wrap;
    SplitExample();
    ByteLenExample();
    var ws := ["abc", "d", "e"];
    assert ws[..2] == ["abc", "d"] && ws[..2][..1] == ["abc"] && ws[..2][..1][..0] == [];
    WrapUnfold([], "\n", 4);
    WrapUnfold(["abc"], "\n", 4);
    WrapUnfold(["abc", "d"], "\n", 4);
    WrapUnfold(ws, "\n", 4);
    assert Wrap(["abc"], "\n", 4) == WrapState("abc", 4, "abc", [Nothing]);
    assert Wrap(["abc", "d"], "\n", 4) == WrapState("abc\nd", 2, "d", [Nothing, LineBreak]);
  }

  // ---------------------------------------------------------------------
  // optionsToFlagsArray

  /** strings.Replace(flags, "=", "|=", -1). */
  function ReplaceEquals(s: string): (r: string)
    decreases |s|
  {
    if s == [] then [] else (if s[0] == '=' then "|=" else [s[0]]) + ReplaceEquals(s[1..])
  }

  lemma {:induction false} ReplaceEqualsNone(s: string)
    requires '=' !in s
    ensures ReplaceEquals(s) == s
    decreases |s|
  {
    if s != [] {
      ReplaceEqualsNone(s[1..]);
      assert s == [s[0]] + s[1..];
    }
  }

  lemma {:induction false} ReplaceEqualsAppend(a: string, b: string)
    ensures ReplaceEquals(a + b) == ReplaceEquals(a) + ReplaceEquals(b)
    decreases |a|
  {
    if a == [] {
      assert a + b == b;
    } else {
      assert (a + b)[1..] == a[1..] + b;
      ReplaceEqualsAppend(a[1..], b);
    }
  }

  lemma ReplaceEqualsSign()
    ensures ReplaceEquals("=") == "|="
  {
    assert "="[1..] == "";
  }

  /** The columns of one option in the option list. */
  function FlagColumns(flags: string): seq<string>
  {
    Split(ReplaceEquals(flags), '|')
  }

  /** Flags without a value placeholder are the `|`-separated flags. */
  lemma FlagColumnsPlain(flags: string)
    requires '=' !in flags
    ensures FlagColumns(flags) == Split(flags, '|')
    ensures Join(FlagColumns(flags), '|') == flags
  {
    ReplaceEqualsNone(flags);
    JoinSplit(flags, '|');
  }

  /** A value placeholder after the flags becomes a column of its own,
      `=` and all. */
  lemma FlagColumnsWithValue(names: string, placeholder: string)
    requires '=' !in names && '=' !in placeholder && '|' !in placeholder
    ensures FlagColumns(names + "=" + placeholder) == Split(names, '|') + ["=" + placeholder]
  {
    hide ReplaceEquals, Split;
    ReplaceEqualsAppend(names, "=" + placeholder);
    ReplaceEqualsAppend("=", placeholder);
    ReplaceEqualsNone(names);
    ReplaceEqualsNone(placeholder);
    ReplaceEqualsSign();
    assert names + "=" + placeholder == names + ("=" + placeholder);
    assert "|=" + placeholder == ['|'] + ("=" + placeholder);
    assert ReplaceEquals(names + "=" + placeholder) == names + ['|'] + ("=" + placeholder);
    SplitConcat(names, '|', "=" + placeholder);
    SplitNone("=" + placeholder, '|');
  }

  /** optionsToFlagsArray: one row of columns per option, in order. */
  method OptionsToFlagsArray(options: seq<OptionDef>) returns (flagsArray: seq<seq<string>>)
    ensures |flagsArray| == |options|
    ensures forall i :: 0 <= i < |options| ==> flagsArray[i] == FlagColumns(options[i].flags)
  {
    flagsArray := [];
    var pos := 0;
    while pos < |options|
      invariant 0 <= pos <= |options|
      invariant |flagsArray| == pos
      invariant forall i :: 0 <= i < pos ==> flagsArray[i] == FlagColumns(options[i].flags)
    {
      var flags := ReplaceEquals(options[pos].flags);
      flagsArray := flagsArray + [Split(flags, '|')];
      pos := pos + 1;
    }
  }
}
