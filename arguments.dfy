/** Argument handling of ff/arguments.go: cutting an option into flag and
    value, the escape table, the quote-aware tokenizer for argument strings
    read from the config file and the environment, the slash variants of
    option flags, the range written into an int option's flags, and the
    rules applied when one argument is parsed and set. */
module Arguments {
  import opened Wrappers
  import opened Util
  import opened Matching

  // ---------------------------------------------------------------------
  // Splitting on one character (strings.Split)

  /** FirstIndexOf finds nothing exactly when the character is absent. */
  lemma {:induction false} FirstIndexOfAbsent(s: string, d: char)
    ensures FirstIndexOf(s, d) == |s| <==> d !in s
    decreases |s|
  {
    if s != [] && s[0] != d {
      FirstIndexOfAbsent(s[1..], d);
      assert s == [s[0]] + s[1..];
    }
  }

  /** The first occurrence of `d` in `a + [d] + b` when `a` has none. */
  lemma {:induction false} FirstIndexOfAfter(a: string, d: char, b: string)
    requires d !in a
    ensures FirstIndexOf(a + [d] + b, d) == |a|
    decreases |a|
  {
    if a != [] {
      FirstIndexOfAfter(a[1..], d, b);
      assert (a + [d] + b)[1..] == a[1..] + [d] + b;
    }
  }

  /** Splitting at the first separator. */
  lemma SplitAfter(a: string, d: char, b: string)
    requires d !in a
    ensures Split(a + [d] + b, d) == [a] + Split(b, d)
  {
    FirstIndexOfAfter(a, d, b);
    var s := a + [d] + b;
    assert s[..|a|] == a && s[|a| + 1..] == b;
  }

  /** A string without the separator is one piece. */
  lemma SplitNone(s: string, d: char)
    requires d !in s
    ensures Split(s, d) == [s]
  {
    FirstIndexOfAbsent(s, d);
  }

  /** Splitting a concatenation around a separator. */
  lemma {:induction false} SplitConcat(a: string, d: char, b: string)
    ensures Split(a + [d] + b, d) == Split(a, d) + Split(b, d)
    decreases |a|
  {
    var i := FirstIndexOf(a, d);
    FirstIndexOfFirst(a, d);
    FirstIndexOfAbsent(a, d);
    hide Split, FirstIndexOf;
    if i == |a| {
      SplitAfter(a, d, b);
      SplitNone(a, d);
    } else {
      var head, rest := a[..i], a[i + 1..];
      SplitConcat(rest, d, b);
      assert a + [d] + b == head + [d] + (rest + [d] + b);
      SplitAfter(head, d, rest + [d] + b);
      assert a == head + [d] + rest;
      SplitAfter(head, d, rest);
    }
  }

  // ---------------------------------------------------------------------
  // Flags and values

  /** hasOptionPrefix: options start with '/' or '-'. */
  predicate HasOptionPrefix(s: string)
  {
    s != "" && (s[0] == '/' || s[0] == '-')
  }

  /** Whether splitOptionFlagAndValue cuts the option: both separators are
      present, or the one present does not stand at the very start. */
  predicate Splits(option: string)
  {
    ('=' in option && ':' in option)
    || ('=' in option && option[0] != '=')
    || (':' in option && option[0] != ':')
  }

  /** Where splitOptionFlagAndValue cuts, or the length when it does not. */
  function CutIndex(option: string): (cut: nat)
    ensures cut <= |option|
  {
    var e := FirstIndexOf(option, '=');
    var c := FirstIndexOf(option, ':');
    if e < |option| && c < |option| then (if c < e then c else e)
    else if 0 < e < |option| then e
    else if 0 < c < |option| then c
    else |option|
  }

  /** The cut is at a separator with none before it, and there is a cut
      exactly when Splits holds. */
  lemma CutIndexSpec(option: string)
    ensures CutIndex(option) < |option| <==> Splits(option)
    ensures CutIndex(option) < |option| ==>
              option[CutIndex(option)] in "=:"
              && '=' !in option[..CutIndex(option)] && ':' !in option[..CutIndex(option)]
  {
    FirstIndexOfFirst(option, '=');
    FirstIndexOfFirst(option, ':');
    FirstIndexOfAbsent(option, '=');
    FirstIndexOfAbsent(option, ':');
    var e := FirstIndexOf(option, '=');
    var c := FirstIndexOf(option, ':');
    var cut := CutIndex(option);
    if cut < |option| {
      assert cut <= e && cut <= c;
      assert option[..cut] == option[..e][..cut] && option[..cut] == option[..c][..cut];
    }
  }

  /** splitOptionFlagAndValue: the flag ends at the earlier of the first '='
      and the first ':', and the value is everything after that separator.
      An option whose only separator kind stands first is not cut. */
  function SplitOptionFlagAndValue(option: string): (r: (string, string))
    ensures Splits(option) ==>
              |r.0| < |option| && option[|r.0|] in "=:"
              && option == r.0 + [option[|r.0|]] + r.1
              && '=' !in r.0 && ':' !in r.0
    ensures !Splits(option) ==> r == (option, "")
  {
    CutIndexSpec(option);
    var cut := CutIndex(option);
    if cut == |option| then (option, "")
    else
      assert option == option[..cut] + [option[cut]] + option[cut + 1..];
      (option[..cut], option[cut + 1..])
  }

  /** The flag part is never cut again, so looking an option up by an
      already split flag (tryGetOptionByFlag) finds the same flag. */
  lemma SplitFlagAgain(option: string)
    ensures SplitOptionFlagAndValue(SplitOptionFlagAndValue(option).0).0
            == SplitOptionFlagAndValue(option).0
  {
  }

  // ---------------------------------------------------------------------
  // Escapes

  /** The seven control characters with a two-character escape:
      bell, backspace, form feed, newline, carriage return, tab, vertical tab. */
  predicate IsEscapable(c: char)
  {
    c == '\U{7}' || c == '\U{8}' || c == '\U{C}' || c == '\n' || c == '\r'
    || c == '\t' || c == '\U{B}'
  }

  /** The seven letters that name an escape. */
  predicate IsEscapeLetter(c: char)
  {
    c == 'a' || c == 'b' || c == 'f' || c == 'n' || c == 'r' || c == 't' || c == 'v'
  }

  /** getRuneByEscapeChar: the character a backslash and `c` stand for. */
  function RuneByEscapeChar(c: char): (r: char)
    ensures !IsEscapeLetter(c) ==> r == c
    ensures IsEscapeLetter(c) ==> IsEscapable(r)
  {
    match c
    case 'a' => '\U{7}'
    case 'b' => '\U{8}'
    case 'f' => '\U{C}'
    case 'n' => '\n'
    case 'r' => '\r'
    case 't' => '\t'
    case 'v' => '\U{B}'
    case _ => c
  }

  /** getEscapeStringByRune: the seven control characters become a backslash
      and the letter that getRuneByEscapeChar maps back; every other
      character stands for itself. */
  function EscapeStringByRune(c: char): (r: string)
    ensures IsEscapable(c) ==>
              |r| == 2 && r[0] == '\\' && IsEscapeLetter(r[1]) && RuneByEscapeChar(r[1]) == c
    ensures !IsEscapable(c) ==> r == [c]
  {
    match c
    case '\U{7}' => "\\a"
    case '\U{8}' => "\\b"
    case '\U{C}' => "\\f"
    case '\n' => "\\n"
    case '\r' => "\\r"
    case '\t' => "\\t"
    case '\U{B}' => "\\v"
    case _ => [c]
  }

  /** Every escape letter is produced by escaping the character it stands for. */
  lemma EscapeLetterRoundTrip(c: char)
    requires IsEscapeLetter(c)
    ensures EscapeStringByRune(RuneByEscapeChar(c)) == ['\\', c]
  {
  }

  /** What escapeString produces: each character replaced by its escape. */
  function Escaped(s: string): (r: string)
    decreases |s|
  {
    if s == [] then [] else Escaped(s[..|s| - 1]) + EscapeStringByRune(s[|s| - 1])
  }

  /** escapeString: one escape per character, appended to a buffer. */
  method EscapeString(s: string) returns (r: string)
    ensures r == Escaped(s)
  {
    r := "";
    var i := 0;
    while i < |s|
      invariant 0 <= i <= |s|
      invariant r == Escaped(s[..i])
    {
      assert s[..i + 1][..i] == s[..i];
      r := r + EscapeStringByRune(s[i]);
      i := i + 1;
    }
    assert s[..i] == s;
  }

  /** None of the seven control characters survives escaping, and a string
      without them is left exactly as it is. */
  lemma {:induction false} EscapedSpec(s: string)
    ensures forall k :: 0 <= k < |Escaped(s)| ==> !IsEscapable(Escaped(s)[k])
    ensures (forall k :: 0 <= k < |s| ==> !IsEscapable(s[k])) ==> Escaped(s) == s
    ensures (exists k :: 0 <= k < |s| && IsEscapable(s[k])) ==> |Escaped(s)| > |s|
    ensures |Escaped(s)| >= |s|
    decreases |s|
  {
    if s != [] {
      var p := s[..|s| - 1];
      EscapedSpec(p);
      var e := EscapeStringByRune(s[|s| - 1]);
      assert Escaped(s) == Escaped(p) + e;
      assert forall k :: 0 <= k < |p| ==> p[k] == s[k];
      if exists k :: 0 <= k < |s| && IsEscapable(s[k]) {
        var k :| 0 <= k < |s| && IsEscapable(s[k]);
        if k < |p| {
          assert IsEscapable(p[k]);
        }
      }
      assert s == p + [s[|s| - 1]];
    }
  }

  // ---------------------------------------------------------------------
  // The argument-string tokenizer (splitArgumentsString)

  /** The loop state of splitArgumentsString: its three flags, the buffer of
      the current token and the tokens completed so far. */
  datatype Splitter = Splitter(insideQuote: bool, insideString: bool, isEscapeCode: bool,
                               buffer: string, tokens: seq<string>)

  const SplitStart := Splitter(false, false, false, "", [])

  /** One character of splitArgumentsString's loop. */
  function SplitStep(st: Splitter, c: char): Splitter
  {
    if st.isEscapeCode then
      st.(buffer := st.buffer + [RuneByEscapeChar(c)], isEscapeCode := false)
    else if IsSpace(c) then
      if st.insideString then st.(insideString := false, tokens := st.tokens + [st.buffer], buffer := "")
      else if st.insideQuote then st.(buffer := st.buffer + [c])
      else st
    else if c == '"' then
      if st.insideQuote then st.(insideQuote := false, insideString := true)
      else st.(insideString := false, insideQuote := true)
    else if c == '\\' then
      if st.insideQuote then st.(isEscapeCode := true) else st.(buffer := st.buffer + [c])
    else
      st.(insideString := st.insideString || !st.insideQuote, buffer := st.buffer + [c])
  }

  /** The loop run over a whole string. */
  function SplitRun(st: Splitter, s: string): Splitter
    decreases |s|
  {
    if s == [] then st else SplitRun(SplitStep(st, s[0]), s[1..])
  }

  /** After the loop: a non-empty buffer is the last token, unless the string
      ended inside an escape or a quote, which is fatal. */
  function SplitFinish(st: Splitter, arguments: string, sourceName: string): Result<seq<string>>
  {
    if |st.buffer| > 0 then
      if st.isEscapeCode then
        Fail("Unterminated arguments string read from the " + sourceName + " ending with '\\': " + arguments)
      else if st.insideQuote then
        Fail("Unterminated arguments string read from the " + sourceName + " ending with '\"': " + arguments)
      else Ok(st.tokens + [st.buffer])
    else Ok(st.tokens)
  }

  /** The tokens of an argument string, or the fatal error. */
  function SplitArguments(arguments: string, sourceName: string): Result<seq<string>>
  {
    SplitFinish(SplitRun(SplitStart, arguments), arguments, sourceName)
  }

  /** Running over a concatenation runs over each part in turn. */
  lemma {:induction false} SplitRunConcat(st: Splitter, a: string, b: string)
    ensures SplitRun(st, a + b) == SplitRun(SplitRun(st, a), b)
    decreases |a|
  {
    if a != [] {
      assert (a + b)[0] == a[0] && (a + b)[1..] == a[1..] + b;
      SplitRunConcat(SplitStep(st, a[0]), a[1..], b);
    } else {
      assert a + b == b;
    }
  }

  /** The loop's next step. */
  lemma SplitRunSnoc(st: Splitter, a: string, c: char)
    ensures SplitRun(st, a + [c]) == SplitStep(SplitRun(st, a), c)
  {
    SplitRunConcat(st, a, [c]);
    assert SplitRun(SplitRun(st, a), [c]) == SplitStep(SplitRun(st, a), c) by {
      assert [c][1..] == [];
    }
  }

  /** splitArgumentsString: a character loop over the three flags and a
      buffer, then the end-of-string check. */
  method SplitArgumentsString(arguments: string, sourceName: string) returns (r: Result<seq<string>>)
    ensures r == SplitArguments(arguments, sourceName)
  {
    var buffer: string := "";
    var insideQuote, insideString, isEscapeCode := false, false, false;
    var tokens: seq<string> := [];
    var i := 0;
    while i < |arguments|
      invariant 0 <= i <= |arguments|
      invariant SplitRun(SplitStart, arguments[..i])
                == Splitter(insideQuote, insideString, isEscapeCode, buffer, tokens)
    {
      var c := arguments[i];
      if isEscapeCode {
        buffer := buffer + [RuneByEscapeChar(c)];
        isEscapeCode := false;
      } else if IsSpace(c) {
        if insideString {
          insideString := false;
          tokens := tokens + [buffer];
          buffer := "";
        } else if insideQuote {
          buffer := buffer + [c];
        }
      } else if c == '"' {
        if insideQuote {
          insideQuote := false;
          insideString := true;
        } else {
          insideString := false;
          insideQuote := true;
        }
      } else if c == '\\' {
        if insideQuote {
          isEscapeCode := true;
        } else {
          buffer := buffer + [c];
        }
      } else {
        if !insideQuote {
          insideString := true;
        }
        buffer := buffer + [c];
      }
      SplitRunSnoc(SplitStart, arguments[..i], c);
      assert arguments[..i + 1] == arguments[..i] + [c];
      i := i + 1;
    }
    assert arguments[..i] == arguments;
    if |buffer| > 0 {
      if isEscapeCode {
        return Fail("Unterminated arguments string read from the " + sourceName + " ending with '\\': " + arguments);
      }
      if insideQuote {
        return Fail("Unterminated arguments string read from the " + sourceName + " ending with '\"': " + arguments);
      }
      tokens := tokens + [buffer];
    }
    r := Ok(tokens);
  }

  /** Between tokens, outside any quote. */
  function Between(done: seq<string>): Splitter
  {
    Splitter(false, false, false, "", done)
  }

  /** Inside an unquoted token (or just after a closing quote). */
  function InWord(done: seq<string>, word: string): Splitter
  {
    Splitter(false, true, false, word, done)
  }

  /** A character that plays no part in quoting or splitting. */
  predicate Plain(c: char)
  {
    !IsSpace(c) && c != '"' && c != '\\'
  }

  /** Index of the first white-space character, or the length. */
  function WordEnd(s: string): (n: nat)
    ensures n <= |s|
    ensures forall k :: 0 <= k < n ==> !IsSpace(s[k])
    ensures n < |s| ==> IsSpace(s[n])
    decreases |s|
  {
    if s == [] || IsSpace(s[0]) then 0 else 1 + WordEnd(s[1..])
  }

  /** The reference tokenization: the maximal runs of non-space characters. */
  function Fields(s: string): (r: seq<string>)
    decreases |s|
  {
    if s == [] then []
    else if IsSpace(s[0]) then Fields(s[1..])
    else
      var n := WordEnd(s);
      [s[..n]] + Fields(s[n..])
  }

  /** Plain characters extend the current unquoted token. */
  lemma {:induction false} InWordRun(done: seq<string>, word: string, w: string)
    requires forall k :: 0 <= k < |w| ==> Plain(w[k])
    ensures SplitRun(InWord(done, word), w) == InWord(done, word + w)
    decreases |w|
  {
    if w != [] {
      assert SplitStep(InWord(done, word), w[0]) == InWord(done, word + [w[0]]);
      InWordRun(done, word + [w[0]], w[1..]);
      assert word + [w[0]] + w[1..] == word + w;
    }
  }

  /** The single steps FieldsRun needs. */
  lemma StepsOutsideQuotes(done: seq<string>, w: string, c: char, arguments: string, sourceName: string)
    ensures IsSpace(c) ==> SplitStep(Between(done), c) == Between(done)
    ensures IsSpace(c) ==> SplitStep(InWord(done, w), c) == Between(done + [w])
    ensures Plain(c) ==> SplitStep(Between(done), c) == InWord(done, [c])
    ensures SplitFinish(Between(done), arguments, sourceName) == Ok(done)
    ensures |w| > 0 ==> SplitFinish(InWord(done, w), arguments, sourceName) == Ok(done + [w])
  {
  }

  /** The run takes the first character first. */
  lemma SplitRunCons(st: Splitter, s: string)
    ensures s == [] ==> SplitRun(st, s) == st
    ensures s != [] ==> SplitRun(st, s) == SplitRun(SplitStep(st, s[0]), s[1..])
  {
  }

  /** Fields skips leading white space, or takes the leading word. */
  lemma FieldsCons(s: string)
    ensures s == [] ==> Fields(s) == []
    ensures s != [] && IsSpace(s[0]) ==> Fields(s) == Fields(s[1..])
    ensures s != [] && !IsSpace(s[0]) ==>
              0 < WordEnd(s) && Fields(s) == [s[..WordEnd(s)]] + Fields(s[WordEnd(s)..])
  {
  }

  /** Without quotes and backslashes the tokens are the white-space
      separated fields. */
  lemma {:induction false} FieldsRun(done: seq<string>, s: string, arguments: string, sourceName: string)
    requires forall k :: 0 <= k < |s| ==> s[k] != '"' && s[k] != '\\'
    ensures SplitFinish(SplitRun(Between(done), s), arguments, sourceName) == Ok(done + Fields(s))
    decreases |s|
  {
    hide SplitStep, SplitRun, SplitFinish, Fields, Between, InWord, IsSpace;
    FieldsCons(s);
    SplitRunCons(Between(done), s);
    if s == [] {
      StepsOutsideQuotes(done, "", ' ', arguments, sourceName);
      assert done + [] == done;
    } else if IsSpace(s[0]) {
      StepsOutsideQuotes(done, "", s[0], arguments, sourceName);
      FieldsRun(done, s[1..], arguments, sourceName);
    } else {
      var n := WordEnd(s);
      var w, rest := s[..n], s[n..];
      assert s == w + rest;
      SplitRunConcat(Between(done), w, rest);
      assert Plain(w[0]);
      StepsOutsideQuotes(done, "", w[0], arguments, sourceName);
      SplitRunCons(Between(done), w);
      assert forall k :: 0 <= k < |w[1..]| ==> Plain(w[1..][k]) by {
        forall k | 0 <= k < |w[1..]| ensures Plain(w[1..][k]) {
          assert w[1..][k] == s[k + 1];
        }
      }
      InWordRun(done, [w[0]], w[1..]);
      assert [w[0]] + w[1..] == w;
      assert SplitRun(Between(done), w) == InWord(done, w);
      SplitRunCons(InWord(done, w), rest);
      if rest == [] {
        StepsOutsideQuotes(done, w, ' ', arguments, sourceName);
        FieldsCons(rest);
        assert |w| > 0;
        assert [w] + Fields(rest) == [w];
      } else {
        StepsOutsideQuotes(done, w, rest[0], arguments, sourceName);
        FieldsCons(rest);
        FieldsRun(done + [w], rest[1..], arguments, sourceName);
        assert done + [w] + Fields(rest) == done + ([w] + Fields(rest));
      }
    }
  }

  /** Outside quotes white space separates tokens: a string without quotes
      and backslashes splits into exactly its white-space separated fields. */
  lemma SplitPlainIsFields(s: string, sourceName: string)
    requires forall k :: 0 <= k < |s| ==> s[k] != '"' && s[k] != '\\'
    ensures SplitArguments(s, sourceName) == Ok(Fields(s))
  {
    hide SplitStep, SplitRun, SplitFinish, Fields;
    assert Between([]) == SplitStart;
    FieldsRun([], s, s, sourceName);
    assert [] + Fields(s) == Fields(s);
  }

  /** No quote, no escape: neither flag can ever be set. */
  lemma {:induction false} QuoteFreeRun(st: Splitter, s: string)
    requires !st.insideQuote && !st.isEscapeCode
    requires forall k :: 0 <= k < |s| ==> s[k] != '"'
    ensures !SplitRun(st, s).insideQuote && !SplitRun(st, s).isEscapeCode
    decreases |s|
  {
    if s != [] {
      QuoteFreeRun(SplitStep(st, s[0]), s[1..]);
    }
  }

  /** Only a quote or an escape can be left open, so a string without a
      quote character is never rejected. */
  lemma QuoteFreeNeverFails(s: string, sourceName: string)
    requires forall k :: 0 <= k < |s| ==> s[k] != '"'
    ensures SplitArguments(s, sourceName).Ok?
  {
    QuoteFreeRun(SplitStart, s);
  }

  /** No token and no buffer holds a quote, and no escape is pending. */
  predicate NoQuoteInside(st: Splitter)
  {
    !st.isEscapeCode && '"' !in st.buffer
    && forall t :: t in st.tokens ==> '"' !in t
  }

  lemma {:induction false} NoBackslashRun(st: Splitter, s: string)
    requires NoQuoteInside(st)
    requires forall k :: 0 <= k < |s| ==> s[k] != '\\'
    ensures NoQuoteInside(SplitRun(st, s))
    decreases |s|
  {
    if s != [] {
      NoBackslashRun(SplitStep(st, s[0]), s[1..]);
    }
  }

  /** Quote characters only delimit: without backslashes no token ever
      contains one (a quote reaches a token only escaped as \" inside
      quotes). */
  lemma QuotesNeverInTokens(s: string, sourceName: string)
    requires forall k :: 0 <= k < |s| ==> s[k] != '\\'
    ensures SplitArguments(s, sourceName).Ok? ==>
              forall t :: t in SplitArguments(s, sourceName).value ==> '"' !in t
  {
    NoBackslashRun(SplitStart, s);
  }

  /** The tokenizer's state inside a quote, no escape pending. */
  function InQuote(done: seq<string>, word: string): Splitter
  {
    Splitter(true, false, false, word, done)
  }

  /** Inside a quote, characters other than the quote and the backslash
      are kept, white space included. */
  lemma {:induction false} QuotedPlainRun(done: seq<string>, word: string, s: string)
    requires forall k :: 0 <= k < |s| ==> s[k] != '"' && s[k] != '\\'
    ensures SplitRun(InQuote(done, word), s) == InQuote(done, word + s)
    decreases |s|
  {
    SplitRunCons(InQuote(done, word), s);
    if s == [] {
      assert word + s == word;
    } else {
      QuotedPlainRun(done, word + [s[0]], s[1..]);
      assert word + [s[0]] + s[1..] == word + s;
    }
  }

  /** A quote opened outside quotes and escapes and followed by a
      non-empty run without quotes and backslashes is never closed: the
      string is fatal, with the quote message. */
  lemma UnterminatedQuoteFails(p: string, tail: string, sourceName: string)
    requires !SplitRun(SplitStart, p).insideQuote && !SplitRun(SplitStart, p).isEscapeCode
    requires tail != [] && forall k :: 0 <= k < |tail| ==> tail[k] != '"' && tail[k] != '\\'
    ensures SplitArguments(p + "\"" + tail, sourceName)
            == Fail("Unterminated arguments string read from the " + sourceName + " ending with '\"': "
                    + (p + "\"" + tail))
  {
    var st := SplitRun(SplitStart, p);
    QuoteOpenRun(p, tail);
    assert |st.buffer + tail| > 0;
  }

  /** The same string followed by one backslash ends inside an escape: it
      is fatal, with the escape message. */
  lemma UnterminatedEscapeFails(p: string, tail: string, sourceName: string)
    requires !SplitRun(SplitStart, p).insideQuote && !SplitRun(SplitStart, p).isEscapeCode
    requires tail != [] && forall k :: 0 <= k < |tail| ==> tail[k] != '"' && tail[k] != '\\'
    ensures SplitArguments(p + "\"" + tail + "\\", sourceName)
            == Fail("Unterminated arguments string read from the " + sourceName + " ending with '\\': "
                    + (p + "\"" + tail + "\\"))
  {
    var st := SplitRun(SplitStart, p);
    QuoteOpenRun(p, tail);
    SplitRunSnoc(SplitStart, p + "\"" + tail, '\\');
    assert |st.buffer + tail| > 0;
  }

  /** The state after an opening quote and a run without quotes and
      backslashes. */
  lemma QuoteOpenRun(p: string, tail: string)
    requires !SplitRun(SplitStart, p).insideQuote && !SplitRun(SplitStart, p).isEscapeCode
    requires forall k :: 0 <= k < |tail| ==> tail[k] != '"' && tail[k] != '\\'
    ensures var st := SplitRun(SplitStart, p);
            SplitRun(SplitStart, p + "\"" + tail) == InQuote(st.tokens, st.buffer + tail)
  {
    hide SplitRun;
    var st := SplitRun(SplitStart, p);
    SplitRunConcat(SplitStart, p + "\"", tail);
    SplitRunSnoc(SplitStart, p, '"');
    assert SplitStep(st, '"') == InQuote(st.tokens, st.buffer);
    QuotedPlainRun(st.tokens, st.buffer, tail);
  }

  // ---------------------------------------------------------------------
  // Slash variants of option flags (addAndGetWithSlashOptionFlags)

  /** The slash variant of one flag: "--x" becomes "/x", any other flag loses
      its first character for the slash. Slicing an empty flag panics. */
  function SlashFlag(flag: string): (r: Result<string>)
  {
    if |flag| >= 2 && flag[..2] == "--" then Ok("/" + flag[2..])
    else if flag == "" then Fail("runtime error: slice bounds out of range")
    else Ok("/" + flag[1..])
  }

  /** The flags of an option's flag string: the part before any value
      placeholder, split at '|'. */
  function BaseFlags(flags: string): (r: seq<string>)
    ensures Join(r, '|') == SplitOptionFlagAndValue(flags).0
  {
    JoinSplit(SplitOptionFlagAndValue(flags).0, '|');
    Split(SplitOptionFlagAndValue(flags).0, '|')
  }

  /** `slash` is `flag` with its leading "--", or else its first
      character, replaced by '/'. */
  predicate IsSlashVariant(flag: string, slash: string)
  {
    slash != "" && slash[0] == '/'
    && if |flag| >= 2 && flag[..2] == "--" then flag == "--" + slash[1..]
       else flag != "" && flag[1..] == slash[1..]
  }

  /** Only the empty flag has no slash variant. */
  lemma SlashFlagSpec(flag: string)
    ensures SlashFlag(flag).Ok? <==> flag != ""
    ensures SlashFlag(flag).Ok? ==> IsSlashVariant(flag, SlashFlag(flag).value)
  {
    if |flag| >= 2 && flag[..2] == "--" {
      assert flag == flag[..2] + flag[2..];
    }
  }

  /** addAndGetWithSlashOptionFlags: the flags followed by one slash variant
      of each, appended while walking the original flags; an empty flag
      panics. */
  method AddAndGetWithSlashOptionFlags(flags: string) returns (r: Result<seq<string>>)
    ensures r.Ok? <==> forall k :: 0 <= k < |BaseFlags(flags)| ==> BaseFlags(flags)[k] != ""
    ensures r.Ok? ==>
              |r.value| == 2 * |BaseFlags(flags)| && r.value[..|BaseFlags(flags)|] == BaseFlags(flags)
              && forall k :: 0 <= k < |BaseFlags(flags)| ==>
                   IsSlashVariant(BaseFlags(flags)[k], r.value[|BaseFlags(flags)| + k])
  {
    var base := BaseFlags(flags);
    hide BaseFlags, IsSlashVariant, SlashFlag;
    var flagsArray := base;
    var length := |flagsArray|;
    var i := 0;
    while i < length
      invariant 0 <= i <= length
      invariant |flagsArray| == length + i && flagsArray[..length] == base
      invariant forall k :: 0 <= k < i ==> base[k] != "" && IsSlashVariant(base[k], flagsArray[length + k])
    {
      var flag := flagsArray[i];
      var newFlag := SlashFlag(flag);
      SlashFlagSpec(flag);
      if newFlag.Fail? {
        return Fail(newFlag.message);
      }
      flagsArray := flagsArray + [newFlag.value];
      i := i + 1;
    }
    r := Ok(flagsArray);
  }

  // ---------------------------------------------------------------------
  // Integers (strconv.Atoi)

  const MinInt64: int := -0x8000_0000_0000_0000
  const MaxInt64: int := 0x7FFF_FFFF_FFFF_FFFF

  predicate AllDigits(d: string)
  {
    forall k :: 0 <= k < |d| ==> '0' <= d[k] <= '9'
  }

  /** The value of a string of decimal digits. */
  function DigitsValue(d: string): (v: nat)
    requires AllDigits(d)
    decreases |d|
  {
    if d == [] then 0 else DigitsValue(d[..|d| - 1]) * 10 + (d[|d| - 1] as int - '0' as int)
  }

  /** strconv.Atoi: an optional sign and at least one decimal digit, within
      the 64-bit range; anything else is an error (None). */
  function Atoi(s: string): (r: Option<int>)
    ensures r.Some? ==> MinInt64 <= r.value <= MaxInt64
  {
    var start := if s != "" && (s[0] == '+' || s[0] == '-') then 1 else 0;
    var d := s[start..];
    if d == "" || !AllDigits(d) then None
    else
      var v := if start == 1 && s[0] == '-' then -(DigitsValue(d) as int) else DigitsValue(d) as int;
      if MinInt64 <= v <= MaxInt64 then Some(v) else None
  }

  /** Reading back the digits strconv.Itoa writes. */
  lemma {:induction false} DigitsValueOfDigits(n: nat)
    ensures AllDigits(Digits(n)) && DigitsValue(Digits(n)) == n
    decreases n
  {
    if n >= 10 {
      DigitsValueOfDigits(n / 10);
      var d := Digits(n);
      assert d[..|d| - 1] == Digits(n / 10);
    }
  }

  /** Atoi undoes Itoa on the 64-bit range. */
  lemma AtoiDecimal(n: int)
    requires MinInt64 <= n <= MaxInt64
    ensures Atoi(Decimal(n)) == Some(n)
  {
    hide Digits, DigitsValue, Decimal;
    var s := Decimal(n);
    if n < 0 {
      DigitsValueOfDigits(-n);
      assert s[0] == '-' && s[1..] == Digits(-n);
    } else {
      DigitsValueOfDigits(n);
      assert '0' <= s[0] <= '9';
      assert s[0..] == Digits(n);
    }
  }

  /** Itoa writes digits and at most a leading minus sign. */
  lemma DecimalChars(n: int)
    ensures forall k :: 0 <= k < |Decimal(n)| ==> Decimal(n)[k] == '-' || '0' <= Decimal(n)[k] <= '9'
  {
    if n < 0 {
      assert forall k :: 1 <= k < |Decimal(n)| ==> Decimal(n)[k] == Digits(-n)[k - 1];
    }
  }

  // ---------------------------------------------------------------------
  // The range of an int option (newIntOption)

  /** newIntOption: the value placeholder of the flags, such as
      "=[0:30]", holds the minimum and the maximum. A placeholder too short
      to strip its brackets, a missing ':', a bound that is not an integer or
      an empty range panics. */
  function IntOptionRange(flags: string): (r: Result<(int, int)>)
    ensures r.Ok? ==> r.value.0 <= r.value.1
  {
    var value := SplitOptionFlagAndValue(flags).1;
    if |value| < 2 then Fail("runtime error: slice bounds out of range")
    else
      var minMax := Split(value[1..|value| - 1], ':');
      if |minMax| < 2 then Fail("runtime error: index out of range")
      else
        match (Atoi(minMax[0]), Atoi(minMax[1]))
        case (Some(lo), Some(hi)) =>
          if lo > hi then Fail("Bad min max range: " + flags) else Ok((lo, hi))
        case _ => Fail("Value range not integer: " + flags)
  }

  /** The first `d` of `a + b` when `a` has none. */
  lemma {:induction false} FirstIndexOfShift(a: string, b: string, d: char)
    requires d !in a
    ensures FirstIndexOf(a + b, d) == |a| + FirstIndexOf(b, d)
    decreases |a|
  {
    if a != [] {
      FirstIndexOfShift(a[1..], b, d);
      assert (a + b)[1..] == a[1..] + b;
    } else {
      assert a + b == b;
    }
  }

  /** A flag without separators followed by '=' and a value is cut at
      that '='. */
  lemma SplitAtEquals(flag: string, value: string)
    requires flag != "" && '=' !in flag && ':' !in flag
    ensures SplitOptionFlagAndValue(flag + "=" + value) == (flag, value)
  {
    var flags := flag + "=" + value;
    assert flags == flag + ("=" + value);
    FirstIndexOfShift(flag, "=" + value, '=');
    FirstIndexOfShift(flag, "=" + value, ':');
    assert CutIndex(flags) == |flag|;
    assert flags[..|flag|] == flag && flags[|flag| + 1..] == value;
  }

  /** The range written into the flags is the range read back. */
  lemma IntOptionRangeOfFlags(flag: string, lo: int, hi: int)
    requires flag != "" && '=' !in flag && ':' !in flag
    requires MinInt64 <= lo <= hi <= MaxInt64
    ensures IntOptionRange(flag + "=[" + Decimal(lo) + ":" + Decimal(hi) + "]") == Ok((lo, hi))
  {
    hide Decimal, Split, Atoi, SplitOptionFlagAndValue, Digits, FirstIndexOf, Splits;
    var dl, dh := Decimal(lo), Decimal(hi);
    DecimalChars(lo);
    DecimalChars(hi);
    AtoiDecimal(lo);
    AtoiDecimal(hi);
    var value := "[" + dl + ":" + dh + "]";
    assert flag + "=[" + dl + ":" + dh + "]" == flag + "=" + value;
    SplitAtEquals(flag, value);
    assert value[1..|value| - 1] == dl + [':'] + dh;
    assert ':' !in dl && ':' !in dh;
    SplitAfter(dl, ':', dh);
    SplitNone(dh, ':');
  }

  // ---------------------------------------------------------------------
  // Parsing and setting one argument (parseAndSetArgument)

  /** The three kinds of option with their default values; an int option
      also carries the range newIntOption read from its flags. */
  datatype Kind =
    | BoolKind(defaultBool: bool)
    | IntKind(defaultInt: int, minValue: int, maxValue: int)
    | StringKind(defaultString: string)

  /** One option: `id` stands for the identity of the option object (its
      position in the option list), since two options may share a name. */
  datatype OptionDef = OptionDef(id: nat, name: string, flags: string, kind: Kind)

  datatype Value = BoolValue(b: bool) | IntValue(i: int) | StringValue(s: string)

  /** The option table: every flag (and slash variant) with its option,
      the end-of-options option, the two options that edit the config file,
      and the names of the options not allowed in config data. */
  datatype OptionTable = OptionTable(byFlag: map<string, OptionDef>, endOfOptions: nat,
                                     setConfig: OptionDef, unsetConfig: OptionDef,
                                     disallowedInConfig: set<string>)

  /** The globals parsing updates: the values set so far (by option id), the
      options given, whether the end of options was reached, and the option
      and non-option arguments collected. */
  datatype ArgState = ArgState(values: map<nat, Value>, given: set<nat>, endOfOptionsReached: bool,
                               optionArguments: seq<string>, nonOptionArguments: seq<string>)

  function Default(o: OptionDef): Value
  {
    match o.kind
    case BoolKind(b) => BoolValue(b)
    case IntKind(d, _, _) => IntValue(d)
    case StringKind(d) => StringValue(d)
  }

  /** An option's current value: the one set, or its default. */
  function Current(st: ArgState, o: OptionDef): Value
  {
    if o.id in st.values then st.values[o.id] else Default(o)
  }

  function BoolOf(v: Value): bool { v.BoolValue? && v.b }

  function StringOf(v: Value): string { if v.StringValue? then v.s else "" }

  /** tryGetOptionByFlag: the option of the flag part of an argument. */
  function LookupOption(t: OptionTable, flag: string): Option<OptionDef>
  {
    var f := SplitOptionFlagAndValue(flag).0;
    if f in t.byFlag then Some(t.byFlag[f]) else None
  }

  /** appendNonOptionArgument: empty arguments are dropped; a search string
      may not come with -S or -U. */
  function AppendNonOption(st: ArgState, arg: string, t: OptionTable): Result<ArgState>
  {
    if arg == "" then Ok(st)
    else if StringOf(Current(st, t.setConfig)) != "" || StringOf(Current(st, t.unsetConfig)) != "" then
      Fail("Cannot specify search string when setting or unsetting config.")
    else Ok(st.(nonOptionArguments := st.nonOptionArguments + [arg]))
  }

  /** Records a given option with its new value and remembers the argument. */
  function SetOption(st: ArgState, o: OptionDef, v: Value, arg: string): ArgState
  {
    st.(values := st.values[o.id := v], given := st.given + {o.id},
        optionArguments := st.optionArguments + [arg])
  }

  function IntRangeError(arg: string, sourceName: string, lo: int, hi: int): Result<ArgState>
  {
    Fail("Option " + arg + " read from the " + sourceName + " must be an integer between "
         + Decimal(lo) + " and " + Decimal(hi) + " inclusive.")
  }

  /** parseAndSetArgument on the parsing state: after the end of options
      everything is a search string; the first non-option ends the options
      (where non-options are allowed); an option's value is checked against
      its kind and then set. Every error exits the program. */
  function ParseArgument(st: ArgState, arg: string, sourceName: string, allowNonOptions: bool,
                         t: OptionTable): Result<ArgState>
  {
    if st.endOfOptionsReached then AppendNonOption(st, arg, t)
    else if !HasOptionPrefix(arg) then
      if !allowNonOptions then
        Fail("Argument \"" + arg + "\" read from the " + sourceName + " is not an option.")
      else AppendNonOption(st.(endOfOptionsReached := true), arg, t)
    else
      var (flag, value) := SplitOptionFlagAndValue(arg);
      match LookupOption(t, flag)
      case None => Fail("Unrecognized option \"" + flag + "\" given in the " + sourceName + ".")
      case Some(o) =>
        if o.id == t.endOfOptions then Ok(st.(endOfOptionsReached := true))
        else
          match o.kind
          case BoolKind(_) =>
            if value != "" then
              Fail("Option " + o.flags + " read from the " + sourceName + " cannot take a value")
            else Ok(SetOption(st, o, BoolValue(!BoolOf(Current(st, o))), arg))
          case IntKind(_, lo, hi) =>
            if value == "" then
              Fail("Option " + o.flags + " read from the " + sourceName + " requires a value.")
            else
              (match Atoi(value)
               case None => IntRangeError(arg, sourceName, lo, hi)
               case Some(n) =>
                 if n < lo || n > hi then IntRangeError(arg, sourceName, lo, hi)
                 else Ok(SetOption(st, o, IntValue(n), arg)))
          case StringKind(_) =>
            if value == "" then
              Fail("Option " + o.flags + " read from the " + sourceName + " requires a value.")
            else Ok(SetOption(st, o, StringValue(value), arg))
  }

  /** The arguments parsed one after the other, stopping at the first error. */
  function ParseAll(st: ArgState, args: seq<string>, sourceName: string, allowNonOptions: bool,
                    t: OptionTable): Result<ArgState>
    decreases |args|
  {
    if args == [] then Ok(st)
    else
      match ParseAll(st, args[..|args| - 1], sourceName, allowNonOptions, t)
      case Fail(m) => Fail(m)
      case Ok(s1) => ParseArgument(s1, args[|args| - 1], sourceName, allowNonOptions, t)
  }

  /** Parsing stops at the first error: the later arguments are not looked at. */
  lemma {:induction false} ParseAllStops(st: ArgState, args: seq<string>, k: nat, sourceName: string,
                                         allowNonOptions: bool, t: OptionTable)
    requires k <= |args|
    requires ParseAll(st, args[..k], sourceName, allowNonOptions, t).Fail?
    ensures ParseAll(st, args, sourceName, allowNonOptions, t)
            == ParseAll(st, args[..k], sourceName, allowNonOptions, t)
    decreases |args| - k
  {
    if k < |args| {
      assert args[..|args| - 1][..k] == args[..k];
      ParseAllStops(st, args[..|args| - 1], k, sourceName, allowNonOptions, t);
    } else {
      assert args[..k] == args;
    }
  }

  /** The non-empty strings of `args`, in order. */
  function NonEmpty(args: seq<string>): seq<string>
    decreases |args|
  {
    if args == [] then []
    else NonEmpty(args[..|args| - 1]) + (if args[|args| - 1] == "" then [] else [args[|args| - 1]])
  }

  /** A bool option takes no value; giving it toggles it. */
  lemma BoolOptionRule(st: ArgState, arg: string, sourceName: string, allowNonOptions: bool,
                       t: OptionTable, o: OptionDef)
    requires !st.endOfOptionsReached && HasOptionPrefix(arg)
    requires LookupOption(t, SplitOptionFlagAndValue(arg).0) == Some(o)
    requires o.id != t.endOfOptions && o.kind.BoolKind?
    ensures var p := ParseArgument(st, arg, sourceName, allowNonOptions, t);
            (p.Ok? <==> SplitOptionFlagAndValue(arg).1 == "")
            && (p.Ok? ==> BoolOf(Current(p.value, o)) == !BoolOf(Current(st, o))
                          && p.value.given == st.given + {o.id}
                          && p.value.optionArguments == st.optionArguments + [arg])
  {
  }

  /** Giving a bool option twice restores its value. */
  lemma BoolOptionTwice(st: ArgState, arg: string, sourceName: string, allowNonOptions: bool,
                        t: OptionTable, o: OptionDef)
    requires !st.endOfOptionsReached && HasOptionPrefix(arg)
    requires LookupOption(t, SplitOptionFlagAndValue(arg).0) == Some(o)
    requires o.id != t.endOfOptions && o.kind.BoolKind?
    requires SplitOptionFlagAndValue(arg).1 == ""
    ensures var p := ParseAll(st, [arg, arg], sourceName, allowNonOptions, t);
            p.Ok? && BoolOf(Current(p.value, o)) == BoolOf(Current(st, o))
  {
    assert [arg, arg][..1] == [arg] && [arg][..0] == [];
    BoolOptionRule(st, arg, sourceName, allowNonOptions, t, o);
    var s1 := ParseArgument(st, arg, sourceName, allowNonOptions, t).value;
    assert ParseAll(st, [arg], sourceName, allowNonOptions, t) == Ok(s1);
    assert !s1.endOfOptionsReached;
    BoolOptionRule(s1, arg, sourceName, allowNonOptions, t, o);
    assert ParseAll(st, [arg, arg], sourceName, allowNonOptions, t)
           == ParseArgument(s1, arg, sourceName, allowNonOptions, t);
  }

  /** An int option needs a value that parses as an integer within the
      option's range, and then holds that integer. */
  lemma IntOptionRule(st: ArgState, arg: string, sourceName: string, allowNonOptions: bool,
                      t: OptionTable, o: OptionDef)
    requires !st.endOfOptionsReached && HasOptionPrefix(arg)
    requires LookupOption(t, SplitOptionFlagAndValue(arg).0) == Some(o)
    requires o.id != t.endOfOptions && o.kind.IntKind?
    ensures var p := ParseArgument(st, arg, sourceName, allowNonOptions, t);
            var n := Atoi(SplitOptionFlagAndValue(arg).1);
            (p.Ok? <==> n.Some? && o.kind.minValue <= n.value <= o.kind.maxValue)
            && (p.Ok? ==> Current(p.value, o) == IntValue(n.value) && o.id in p.value.given)
  {
  }

  /** A string option needs a non-empty value, and then holds it. */
  lemma StringOptionRule(st: ArgState, arg: string, sourceName: string, allowNonOptions: bool,
                         t: OptionTable, o: OptionDef)
    requires !st.endOfOptionsReached && HasOptionPrefix(arg)
    requires LookupOption(t, SplitOptionFlagAndValue(arg).0) == Some(o)
    requires o.id != t.endOfOptions && o.kind.StringKind?
    ensures var p := ParseArgument(st, arg, sourceName, allowNonOptions, t);
            (p.Ok? <==> SplitOptionFlagAndValue(arg).1 != "")
            && (p.Ok? ==> Current(p.value, o) == StringValue(SplitOptionFlagAndValue(arg).1))
  {
  }

  /** The first argument without an option prefix ends the options where
      non-options are allowed, and is an error where they are not. */
  lemma NonOptionRule(st: ArgState, arg: string, sourceName: string, allowNonOptions: bool,
                      t: OptionTable)
    requires !st.endOfOptionsReached && !HasOptionPrefix(arg)
    ensures var p := ParseArgument(st, arg, sourceName, allowNonOptions, t);
            (!allowNonOptions ==> p.Fail?)
            && (p.Ok? ==> p.value.endOfOptionsReached && p.value.values == st.values
                          && p.value.optionArguments == st.optionArguments
                          && p.value.nonOptionArguments
                             == st.nonOptionArguments + (if arg == "" then [] else [arg]))
  {
  }

  /** Once the end of options is reached every later argument, whatever it
      looks like, is collected as a search string, and no option changes. */
  lemma {:induction false} AfterEndOfOptions(st: ArgState, args: seq<string>, sourceName: string,
                                              allowNonOptions: bool, t: OptionTable)
    requires st.endOfOptionsReached
    ensures var p := ParseAll(st, args, sourceName, allowNonOptions, t);
            p.Ok? ==> p.value.endOfOptionsReached && p.value.values == st.values
                      && p.value.given == st.given
                      && p.value.optionArguments == st.optionArguments
                      && p.value.nonOptionArguments == st.nonOptionArguments + NonEmpty(args)
    decreases |args|
  {
    if args != [] {
      var init := args[..|args| - 1];
      AfterEndOfOptions(st, init, sourceName, allowNonOptions, t);
      assert NonEmpty(args) == NonEmpty(init) + (if args[|args| - 1] == "" then [] else [args[|args| - 1]]);
    }
  }

  /** The outcome of a method that either stops with an error or leaves the
      parsing state `st`. */
  function Outcome(r: Result<()>, st: ArgState): Result<ArgState>
  {
    if r.Ok? then Ok(st) else Fail(r.message)
  }

  /** The option values and argument lists that parsing updates in place. */
  class ArgumentParser {
    const table: OptionTable
    var values: map<nat, Value>
    var given: set<nat>
    var endOfOptionsReached: bool
    var optionArguments: seq<string>
    var nonOptionArguments: seq<string>

    function State(): ArgState
      reads this
    {
      ArgState(values, given, endOfOptionsReached, optionArguments, nonOptionArguments)
    }

    constructor (table: OptionTable)
      ensures this.table == table && State() == ArgState(map[], {}, false, [], [])
    {
      this.table := table;
      values, given := map[], {};
      endOfOptionsReached := false;
      optionArguments, nonOptionArguments := [], [];
    }

    /** appendNonOptionArgument. */
    method AppendNonOptionArgument(arg: string) returns (r: Result<()>)
      modifies this
      ensures Outcome(r, State()) == AppendNonOption(old(State()), arg, table)
    {
      if arg == "" {
        return Ok(());
      }
      if StringOf(Current(State(), table.setConfig)) != "" || StringOf(Current(State(), table.unsetConfig)) != "" {
        return Fail("Cannot specify search string when setting or unsetting config.");
      }
      nonOptionArguments := nonOptionArguments + [arg];
      r := Ok(());
    }

    /** parseAndSetArgument: sets the option an argument names, or collects
      a search string. */
    method ParseAndSetArgument(arg: string, sourceName: string, allowNonOptions: bool) returns (r: Result<()>)
      modifies this
      ensures Outcome(r, State()) == ParseArgument(old(State()), arg, sourceName, allowNonOptions, table)
    {
      if endOfOptionsReached {
        r := AppendNonOptionArgument(arg);
        return;
      }
      if !HasOptionPrefix(arg) {
        if !allowNonOptions {
          return Fail("Argument \"" + arg + "\" read from the " + sourceName + " is not an option.");
        }
        endOfOptionsReached := true;
        r := AppendNonOptionArgument(arg);
        return;
      }
      var (flag, value) := SplitOptionFlagAndValue(arg);
      var option := LookupOption(table, flag);
      if option.None? {
        return Fail("Unrecognized option \"" + flag + "\" given in the " + sourceName + ".");
      }
      var o := option.value;
      if o.id == table.endOfOptions {
        endOfOptionsReached := true;
        return Ok(());
      }
      match o.kind {
        case BoolKind(_) =>
          if value != "" {
            return Fail("Option " + o.flags + " read from the " + sourceName + " cannot take a value");
          }
          given := given + {o.id};
          values := values[o.id := BoolValue(!BoolOf(Current(State(), o)))];
        case IntKind(_, lo, hi) =>
          if value == "" {
            return Fail("Option " + o.flags + " read from the " + sourceName + " requires a value.");
          }
          var number := Atoi(value);
          if number.None? || number.value < lo || number.value > hi {
            return Fail(IntRangeError(arg, sourceName, lo, hi).message);
          }
          given := given + {o.id};
          values := values[o.id := IntValue(number.value)];
        case StringKind(_) =>
          if value == "" {
            return Fail("Option " + o.flags + " read from the " + sourceName + " requires a value.");
          }
          given := given + {o.id};
          values := values[o.id := StringValue(value)];
      }
      optionArguments := optionArguments + [arg];
      r := Ok(());
    }

    /** loadArgumentsFromCommandLine: every command-line argument in turn. */
    method LoadArgumentsFromCommandLine(args: seq<string>) returns (r: Result<()>)
      modifies this
      ensures Outcome(r, State()) == ParseAll(old(State()), args, "command line", true, table)
    {
      ghost var st0 := State();
      var i := 0;
      while i < |args|
        invariant 0 <= i <= |args|
        invariant ParseAll(st0, args[..i], "command line", true, table) == Ok(State())
      {
        assert args[..i + 1][..i] == args[..i];
        r := ParseAndSetArgument(args[i], "command line", true);
        if r.Fail? {
          ParseAllStops(st0, args, i + 1, "command line", true, table);
          return;
        }
        i := i + 1;
      }
      assert args[..i] == args;
      r := Ok(());
    }
  }
}
