/** The config file of ff/config.go: reading it into a map from option name
    to option string, merging options into that map (-S), removing options
    from it (-U), and writing the map back as one line of space-separated,
    quoted where needed, option strings. */
module Config {
  import opened Wrappers
  import opened Matching
  import opened Arguments

  // ---------------------------------------------------------------------
  // Reading (readConfigFileOptionsMap)

  /** getOptionByFlag(...).getDefinition().name: the name of the option an
      option string sets. */
  function NameOf(t: OptionTable, s: string): Option<string>
  {
    match LookupOption(t, s)
    case None => None
    case Some(o) => Some(o.name)
  }

  /** The config map of a list of option strings: keyed by option name, a
      later string for the same option replacing an earlier one, unknown
      options dropped. */
  function OptionsMap(entries: seq<string>, t: OptionTable): map<string, string>
    decreases |entries|
  {
    if entries == [] then map[]
    else
      var m := OptionsMap(entries[..|entries| - 1], t);
      var e := entries[|entries| - 1];
      match NameOf(t, e)
      case None => m
      case Some(n) => m[n := e]
  }

  /** The map holds exactly the names of the known entries. */
  lemma {:induction false} OptionsMapKeys(entries: seq<string>, t: OptionTable)
    ensures forall n :: n in OptionsMap(entries, t) <==>
              exists i :: 0 <= i < |entries| && NameOf(t, entries[i]) == Some(n)
    decreases |entries|
  {
    hide NameOf, LookupOption;
    if entries != [] {
      var init := entries[..|entries| - 1];
      var last := |entries| - 1;
      OptionsMapKeys(init, t);
      assert forall i :: 0 <= i < |init| ==> init[i] == entries[i];
      var m := OptionsMap(entries, t);
      forall n
        ensures n in m <==> exists i :: 0 <= i < |entries| && NameOf(t, entries[i]) == Some(n)
      {
        if exists i :: 0 <= i < |entries| && NameOf(t, entries[i]) == Some(n) {
          var i :| 0 <= i < |entries| && NameOf(t, entries[i]) == Some(n);
          if i < last {
            assert NameOf(t, init[i]) == Some(n);
          }
        }
      }
    }
  }

  /** Each name is stored with the last entry that names it. */
  lemma {:induction false} OptionsMapLast(entries: seq<string>, t: OptionTable)
    ensures forall n :: n in OptionsMap(entries, t) ==>
              exists i :: 0 <= i < |entries| && entries[i] == OptionsMap(entries, t)[n]
                          && NameOf(t, entries[i]) == Some(n)
                          && forall j :: i < j < |entries| ==> NameOf(t, entries[j]) != Some(n)
    decreases |entries|
  {
    hide NameOf, LookupOption;
    if entries != [] {
      var init := entries[..|entries| - 1];
      var last := |entries| - 1;
      OptionsMapLast(init, t);
      assert forall i :: 0 <= i < |init| ==> init[i] == entries[i];
      var m := OptionsMap(entries, t);
      forall n | n in m
        ensures exists i :: 0 <= i < |entries| && entries[i] == m[n] && NameOf(t, entries[i]) == Some(n)
                            && forall j :: i < j < |entries| ==> NameOf(t, entries[j]) != Some(n)
      {
        if NameOf(t, entries[last]) == Some(n) {
          assert entries[last] == m[n];
        } else {
          var i :| 0 <= i < |init| && init[i] == OptionsMap(init, t)[n] && NameOf(t, init[i]) == Some(n)
                   && forall j :: i < j < |init| ==> NameOf(t, init[j]) != Some(n);
          assert entries[i] == m[n];
        }
      }
    }
  }

  /** The map holds exactly the names of the known entries, each with the
      last entry that names it. */
  lemma OptionsMapSpec(entries: seq<string>, t: OptionTable)
    ensures forall n :: n in OptionsMap(entries, t) <==>
              exists i :: 0 <= i < |entries| && NameOf(t, entries[i]) == Some(n)
    ensures forall n :: n in OptionsMap(entries, t) ==>
              exists i :: 0 <= i < |entries| && entries[i] == OptionsMap(entries, t)[n]
                          && NameOf(t, entries[i]) == Some(n)
                          && forall j :: i < j < |entries| ==> NameOf(t, entries[j]) != Some(n)
  {
    OptionsMapKeys(entries, t);
    OptionsMapLast(entries, t);
  }

  /** readConfigFileOptionsMap: the config file's text split like an
      argument string, then the known options keyed by name. */
  method ReadConfigFileOptionsMap(fileContents: string, configFilePath: string, t: OptionTable)
    returns (r: Result<map<string, string>>)
    ensures SplitArguments(fileContents, "config file " + configFilePath).Fail? ==>
              r == Fail(SplitArguments(fileContents, "config file " + configFilePath).message)
    ensures SplitArguments(fileContents, "config file " + configFilePath).Ok? ==>
              r == Ok(OptionsMap(SplitArguments(fileContents, "config file " + configFilePath).value, t))
  {
    var raw := SplitArgumentsString(fileContents, "config file " + configFilePath);
    if raw.Fail? {
      return Fail(raw.message);
    }
    var entries := raw.value;
    var merged: map<string, string> := map[];
    var i := 0;
    while i < |entries|
      invariant 0 <= i <= |entries|
      invariant merged == OptionsMap(entries[..i], t)
    {
      assert entries[..i + 1][..i] == entries[..i];
      var name := NameOf(t, entries[i]);
      if name.Some? {
        merged := merged[name.value := entries[i]];
      }
      i := i + 1;
    }
    assert entries[..i] == entries;
    r := Ok(merged);
  }

  // ---------------------------------------------------------------------
  // Merging (the loop of setConfigOptions)

  /** All option strings name a known option. */
  predicate AllKnown(entries: seq<string>, t: OptionTable)
  {
    forall i :: 0 <= i < |entries| ==> NameOf(t, entries[i]).Some?
  }

  /** One step of the merge: the entry is stored under its option's name;
      the change flag is raised unless the same string was already there
      (an empty stored string counts as absent). */
  function MergeOne(m: map<string, string>, e: string, t: OptionTable): (r: (map<string, string>, bool))
    requires NameOf(t, e).Some?
    ensures r.0 == m[NameOf(t, e).value := e]
    ensures r.1 <==> !(NameOf(t, e).value in m && m[NameOf(t, e).value] != "" && m[NameOf(t, e).value] == e)
  {
    var n := NameOf(t, e).value;
    var oldString := if n in m then m[n] else "";
    if oldString == "" then (m[n := e], true)
    else if oldString == e then (m, false)
    else (m[n := e], true)
  }

  /** The merge of a list of option strings, with the change flag. */
  function Merged(m: map<string, string>, entries: seq<string>, t: OptionTable): (map<string, string>, bool)
    requires AllKnown(entries, t)
    decreases |entries|
  {
    if entries == [] then (m, false)
    else
      var (m1, c1) := Merged(m, entries[..|entries| - 1], t);
      var (m2, c2) := MergeOne(m1, entries[|entries| - 1], t);
      (m2, c1 || c2)
  }

  /** Merging overrides the old map with the map of the new options; an
      unchanged flag means the map is the old one. */
  lemma {:induction false} MergedSpec(m: map<string, string>, entries: seq<string>, t: OptionTable)
    requires AllKnown(entries, t)
    ensures Merged(m, entries, t).0 == m + OptionsMap(entries, t)
    ensures !Merged(m, entries, t).1 ==> Merged(m, entries, t).0 == m
    decreases |entries|
  {
    hide NameOf, LookupOption;
    if entries == [] {
      assert m + map[] == m;
    } else {
      var init := entries[..|entries| - 1];
      var e := entries[|entries| - 1];
      assert AllKnown(init, t) by {
        assert forall i :: 0 <= i < |init| ==> init[i] == entries[i];
      }
      MergedSpec(m, init, t);
      var n := NameOf(t, e).value;
      assert OptionsMap(entries, t) == OptionsMap(init, t)[n := e];
      assert (m + OptionsMap(init, t))[n := e] == m + OptionsMap(init, t)[n := e];
    }
  }

  /** The merge loop of setConfigOptions. */
  method MergeOptions(m: map<string, string>, newOptionStrings: seq<string>, t: OptionTable)
    returns (merged: map<string, string>, isChanged: bool)
    requires AllKnown(newOptionStrings, t)
    ensures (merged, isChanged) == Merged(m, newOptionStrings, t)
  {
    merged, isChanged := m, false;
    var i := 0;
    while i < |newOptionStrings|
      invariant 0 <= i <= |newOptionStrings|
      invariant AllKnown(newOptionStrings[..i], t)
      invariant (merged, isChanged) == Merged(m, newOptionStrings[..i], t)
    {
      assert newOptionStrings[..i + 1][..i] == newOptionStrings[..i];
      var newOptionString := newOptionStrings[i];
      var name := NameOf(t, newOptionString).value;
      var oldOptionString := if name in merged then merged[name] else "";
      if oldOptionString == "" {
        merged := merged[name := newOptionString];
        isChanged := true;
      } else if oldOptionString == newOptionString {
      } else {
        merged := merged[name := newOptionString];
        isChanged := true;
      }
      i := i + 1;
    }
    assert newOptionStrings[..i] == newOptionStrings;
  }

  // ---------------------------------------------------------------------
  // Removing (the loop of unsetConfigOptions)

  /** One step of the removal: a stored option of the entry's name is
      deleted and raises the change flag; an absent one is ignored. */
  function UnsetOne(m: map<string, string>, e: string, t: OptionTable): (r: (map<string, string>, bool))
    requires NameOf(t, e).Some?
    ensures var n := NameOf(t, e).value;
            r == if n in m && m[n] != "" then (m - {n}, true) else (m, false)
  {
    var n := NameOf(t, e).value;
    var oldString := if n in m then m[n] else "";
    if oldString == "" then (m, false) else (m - {n}, true)
  }

  function Unsetted(m: map<string, string>, entries: seq<string>, t: OptionTable): (map<string, string>, bool)
    requires AllKnown(entries, t)
    decreases |entries|
  {
    if entries == [] then (m, false)
    else
      var (m1, c1) := Unsetted(m, entries[..|entries| - 1], t);
      var (m2, c2) := UnsetOne(m1, entries[|entries| - 1], t);
      (m2, c1 || c2)
  }

  /** The names the entries set. */
  function NamesOf(entries: seq<string>, t: OptionTable): set<string>
    requires AllKnown(entries, t)
    decreases |entries|
  {
    if entries == [] then {}
    else NamesOf(entries[..|entries| - 1], t) + {NameOf(t, entries[|entries| - 1]).value}
  }

  predicate NonEmptyValues(m: map<string, string>)
  {
    forall n :: n in m ==> m[n] != ""
  }

  /** Unsetting deletes exactly the named options and keeps every other
      key; the change flag says whether any named option was present. */
  lemma {:induction false} UnsettedSpec(m: map<string, string>, entries: seq<string>, t: OptionTable)
    requires AllKnown(entries, t) && NonEmptyValues(m)
    ensures Unsetted(m, entries, t).0 == m - NamesOf(entries, t)
    ensures Unsetted(m, entries, t).1 <==> m.Keys * NamesOf(entries, t) != {}
    decreases |entries|
  {
    if entries == [] {
      assert m - {} == m;
    } else {
      var init := entries[..|entries| - 1];
      var e := entries[|entries| - 1];
      assert AllKnown(init, t) by {
        assert forall i :: 0 <= i < |init| ==> init[i] == entries[i];
      }
      UnsettedSpec(m, init, t);
      var n := NameOf(t, e).value;
      var m1 := m - NamesOf(init, t);
      assert NamesOf(entries, t) == NamesOf(init, t) + {n};
      assert m1 - {n} == m - NamesOf(entries, t);
      if n in m1 {
        assert n in m.Keys * NamesOf(entries, t);
      } else {
        assert m1 == m - NamesOf(entries, t);
      }
    }
  }

  /** The removal loop of unsetConfigOptions. */
  method UnsetOptions(m: map<string, string>, newOptionStrings: seq<string>, t: OptionTable)
    returns (remaining: map<string, string>, isChanged: bool)
    requires AllKnown(newOptionStrings, t)
    ensures (remaining, isChanged) == Unsetted(m, newOptionStrings, t)
  {
    remaining, isChanged := m, false;
    var i := 0;
    while i < |newOptionStrings|
      invariant 0 <= i <= |newOptionStrings|
      invariant AllKnown(newOptionStrings[..i], t)
      invariant (remaining, isChanged) == Unsetted(m, newOptionStrings[..i], t)
    {
      assert newOptionStrings[..i + 1][..i] == newOptionStrings[..i];
      var name := NameOf(t, newOptionStrings[i]).value;
      var oldOptionString := if name in remaining then remaining[name] else "";
      if oldOptionString != "" {
        remaining := remaining - {name};
        isChanged := true;
      }
      i := i + 1;
    }
    assert newOptionStrings[..i] == newOptionStrings;
  }

  // ---------------------------------------------------------------------
  // Writing (writeOptionsToConfigFile)

  /** The pieces joined by single spaces, no space before the first
      non-empty text. */
  function Joined(pieces: seq<string>): string
    decreases |pieces|
  {
    if pieces == [] then ""
    else
      var acc := Joined(pieces[..|pieces| - 1]);
      (if |acc| > 0 then acc + " " else acc) + pieces[|pieces| - 1]
  }

  /** The corrected escape inside quotes: the backslash and the quote are
      escaped as well as the seven control characters. */
  function EscapeInQuotes(c: char): (r: string)
    ensures c == '\\' || c == '"' ==> r == ['\\', c]
    ensures c != '\\' && c != '"' ==> r == EscapeStringByRune(c)
  {
    if c == '\\' || c == '"' then ['\\', c] else EscapeStringByRune(c)
  }

  function EscapedInQuotes(s: string): string
    decreases |s|
  {
    if s == [] then [] else EscapedInQuotes(s[..|s| - 1]) + EscapeInQuotes(s[|s| - 1])
  }

  /** A string is quoted when it holds one of the characters the writer
      quotes for (a space or one of the seven control characters), any
      other white space or a quote, or when it is made of backslashes only
      (such a token is not ended by a space outside quotes). */
  predicate NeedsQuotes(e: string)
  {
    (forall k :: 0 <= k < |e| ==> e[k] == '\\')
    || exists k :: 0 <= k < |e| && (IsSpace(e[k]) || IsEscapable(e[k]) || e[k] == '"')
  }

  /** One option string as the corrected writer puts it in the file. */
  function Quoted(e: string): string
  {
    if NeedsQuotes(e) then "\"" + EscapedInQuotes(e) + "\"" else e
  }

  function QuotedAll(entries: seq<string>): (r: seq<string>)
    ensures |r| == |entries|
    ensures forall i :: 0 <= i < |entries| ==> r[i] == Quoted(entries[i])
  {
    seq(|entries|, i requires 0 <= i < |entries| => Quoted(entries[i]))
  }

  /** `order` lists every key of `m` once: one order a Go map range may
      take. */
  predicate IsKeyOrder(order: seq<string>, m: map<string, string>)
  {
    (forall i :: 0 <= i < |order| ==> order[i] in m)
    && (forall i, j :: 0 <= i < j < |order| ==> order[i] != order[j])
    && (forall k :: k in m ==> k in order)
  }

  /** The values of `m` in the order of `order`. */
  function ValuesIn(order: seq<string>, m: map<string, string>): (r: seq<string>)
    requires forall i :: 0 <= i < |order| ==> order[i] in m
    ensures |r| == |order|
    decreases |order|
  {
    if order == [] then []
    else ValuesIn(order[..|order| - 1], m) + [m[order[|order| - 1]]]
  }

  lemma {:induction false} ValuesInAt(order: seq<string>, m: map<string, string>, i: nat)
    requires forall k :: 0 <= k < |order| ==> order[k] in m
    requires i < |order|
    ensures ValuesIn(order, m)[i] == m[order[i]]
    decreases |order|
  {
    if i < |order| - 1 {
      ValuesInAt(order[..|order| - 1], m, i);
    }
  }

  /** writeOptionsToConfigFile: the map's option strings in the map's
      (unspecified) iteration order, space separated, each quoted as the
      writer as written quotes it. */
  method WriteOptionsToConfigFile(optionsToWrite: map<string, string>)
    returns (text: string, ghost order: seq<string>)
    ensures IsKeyOrder(order, optionsToWrite)
    ensures text == Joined(QuotedAllAsWritten(ValuesIn(order, optionsToWrite)))
  {
    hide Joined, QuotedAsWritten;
    JoinedNil();
    var rest := optionsToWrite.Keys;
    text, order := "", [];
    while rest != {}
      invariant forall i :: 0 <= i < |order| ==> order[i] in optionsToWrite && order[i] !in rest
      invariant forall i, j :: 0 <= i < j < |order| ==> order[i] != order[j]
      invariant forall k :: k in optionsToWrite ==> k in order || k in rest
      invariant rest <= optionsToWrite.Keys
      invariant text == Joined(QuotedAllAsWritten(ValuesIn(order, optionsToWrite)))
      decreases |rest|
    {
      var k :| k in rest;
      var optionString := optionsToWrite[k];
      ghost var pieces := QuotedAllAsWritten(ValuesIn(order, optionsToWrite));
      assert QuotedAllAsWritten(ValuesIn(order + [k], optionsToWrite)) == pieces + [QuotedAsWritten(optionString)] by {
        assert (order + [k])[..|order|] == order;
      }
      JoinedSnoc(pieces, QuotedAsWritten(optionString));
      if |text| > 0 {
        text := text + " ";
      }
      text := text + QuotedAsWritten(optionString);
      order := order + [k];
      rest := rest - {k};
    }
  }

  lemma JoinedNil()
    ensures Joined([]) == ""
  {
  }

  lemma JoinedSnoc(pieces: seq<string>, p: string)
    ensures Joined(pieces + [p]) == (if |Joined(pieces)| > 0 then Joined(pieces) + " " else Joined(pieces)) + p
  {
    assert (pieces + [p])[..|pieces|] == pieces;
  }

  /** writeOptionsToConfigFileIfChanged: the text written, or None when
      nothing changed. */
  method WriteOptionsToConfigFileIfChanged(optionsToWrite: map<string, string>, isChanged: bool)
    returns (written: Option<string>, ghost order: seq<string>)
    ensures written.Some? <==> isChanged
    ensures written.Some? ==> IsKeyOrder(order, optionsToWrite)
                              && written.value == Joined(QuotedAllAsWritten(ValuesIn(order, optionsToWrite)))
  {
    order := [];
    if isChanged {
      var text;
      text, order := WriteOptionsToConfigFile(optionsToWrite);
      written := Some(text);
    } else {
      written := None;
    }
  }

  // ---------------------------------------------------------------------
  // Round trip of the corrected writer through the tokenizer

  /** Some character of `e` is not a backslash (front recursion). */
  predicate HasNonBackslash(e: string)
    decreases |e|
  {
    e != [] && (e[0] != '\\' || HasNonBackslash(e[1..]))
  }

  lemma {:induction false} HasNonBackslashSpec(e: string)
    ensures HasNonBackslash(e) <==> exists k :: 0 <= k < |e| && e[k] != '\\'
    decreases |e|
  {
    if e != [] {
      HasNonBackslashSpec(e[1..]);
      if exists k :: 0 <= k < |e[1..]| && e[1..][k] != '\\' {
        var k :| 0 <= k < |e[1..]| && e[1..][k] != '\\';
        assert e[k + 1] != '\\';
      }
      if exists k :: 0 <= k < |e| && e[k] != '\\' {
        var k :| 0 <= k < |e| && e[k] != '\\';
        if k > 0 {
          assert e[1..][k - 1] != '\\';
        }
      }
    }
  }

  /** Outside quotes, characters other than white space and the quote are
      collected into the token; a backslash alone does not start one. */
  lemma {:induction false} UnquotedRun(done: seq<string>, word: string, started: bool, e: string)
    requires forall k :: 0 <= k < |e| ==> !IsSpace(e[k]) && e[k] != '"'
    ensures SplitRun(Splitter(false, started, false, word, done), e)
            == Splitter(false, started || HasNonBackslash(e), false, word + e, done)
    decreases |e|
  {
    hide SplitRun, IsSpace;
    SplitRunCons(Splitter(false, started, false, word, done), e);
    if e == [] {
      assert word + e == word;
    } else {
      var next := Splitter(false, started || e[0] != '\\', false, word + [e[0]], done);
      assert SplitStep(Splitter(false, started, false, word, done), e[0]) == next;
      UnquotedRun(done, word + [e[0]], started || e[0] != '\\', e[1..]);
      assert word + [e[0]] + e[1..] == word + e;
    }
  }

  /** Inside a quote, one escaped character reads back as itself. */
  lemma EscapeInQuotesRun(done: seq<string>, word: string, c: char)
    ensures SplitRun(InQuote(done, word), EscapeInQuotes(c)) == InQuote(done, word + [c])
  {
    var x := EscapeInQuotes(c);
    if c == '\\' || c == '"' || IsEscapable(c) {
      assert x == [x[0], x[1]];
      assert x[1..] == [x[1]];
      SplitRunCons(InQuote(done, word), x);
      SplitRunCons(SplitStep(InQuote(done, word), x[0]), x[1..]);
    } else {
      SplitRunCons(InQuote(done, word), x);
    }
  }

  /** Inside a quote, the corrected escape of `e` reads back as `e`. */
  lemma {:induction false} EscapedInQuotesRun(done: seq<string>, word: string, e: string)
    ensures SplitRun(InQuote(done, word), EscapedInQuotes(e)) == InQuote(done, word + e)
    decreases |e|
  {
    if e == [] {
      assert word + e == word;
    } else {
      var p := e[..|e| - 1];
      var c := e[|e| - 1];
      EscapedInQuotesRun(done, word, p);
      SplitRunConcat(InQuote(done, word), EscapedInQuotes(p), EscapeInQuotes(c));
      EscapeInQuotesRun(done, word + p, c);
      assert word + p + [c] == word + e;
    }
  }

  /** A quote opens a quoted token between tokens and closes it inside one. */
  lemma QuoteSteps(done: seq<string>, word: string)
    ensures SplitStep(Between(done), '"') == InQuote(done, "")
    ensures SplitStep(InQuote(done, word), '"') == InWord(done, word)
  {
  }

  /** One option string written by the corrected writer, read from between
      tokens, is the current token once it ends. */
  lemma QuotedRun(done: seq<string>, e: string)
    requires e != ""
    ensures SplitRun(Between(done), Quoted(e)) == InWord(done, e)
  {
    hide SplitRun, SplitStep, EscapedInQuotes;
    if NeedsQuotes(e) {
      var body := EscapedInQuotes(e);
      assert Quoted(e) == ['"'] + (body + ['"']);
      SplitRunConcat(Between(done), ['"'], body + ['"']);
      SplitRunCons(Between(done), ['"']);
      SplitRunCons(SplitStep(Between(done), '"'), ['"'][1..]);
      QuoteSteps(done, e);
      SplitRunConcat(InQuote(done, ""), body, ['"']);
      EscapedInQuotesRun(done, "", e);
      assert "" + e == e;
      SplitRunCons(InQuote(done, e), ['"']);
      SplitRunCons(SplitStep(InQuote(done, e), '"'), ['"'][1..]);
    } else {
      HasNonBackslashSpec(e);
      UnquotedRun(done, "", false, e);
      assert "" + e == e;
    }
  }

  lemma QuotedNonEmpty(e: string)
    requires e != ""
    ensures |Quoted(e)| > 0
  {
  }

  lemma SpaceIsSpace()
    ensures IsSpace(' ')
  {
  }

  lemma QuotedAllSnoc(entries: seq<string>, e: string)
    ensures QuotedAll(entries + [e]) == QuotedAll(entries) + [Quoted(e)]
  {
  }

  /** The text of several non-empty option strings leaves the last one as
      the current token. */
  lemma {:induction false} JoinedRun(entries: seq<string>)
    requires entries != []
    requires forall i :: 0 <= i < |entries| ==> entries[i] != ""
    ensures |Joined(QuotedAll(entries))| > 0
    ensures SplitRun(SplitStart, Joined(QuotedAll(entries)))
            == InWord(entries[..|entries| - 1], entries[|entries| - 1])
    decreases |entries|
  {
    hide SplitRun, SplitStep, Quoted, Joined, QuotedAll, IsSpace;
    var init := entries[..|entries| - 1];
    var e := entries[|entries| - 1];
    assert entries == init + [e];
    QuotedAllSnoc(init, e);
    JoinedSnoc(QuotedAll(init), Quoted(e));
    QuotedRun(init, e);
    if init == [] {
      JoinedNil();
      assert Between([]) == SplitStart;
      assert Joined(QuotedAll(entries)) == Quoted(e);
      QuotedNonEmpty(e);
    } else {
      JoinedRun(init);
      var text := Joined(QuotedAll(init));
      assert Joined(QuotedAll(entries)) == text + [' '] + Quoted(e);
      SplitRunConcat(SplitStart, text + [' '], Quoted(e));
      SplitRunConcat(SplitStart, text, [' ']);
      SplitRunCons(SplitRun(SplitStart, text), [' ']);
      SplitRunCons(SplitStep(SplitRun(SplitStart, text), ' '), [' '][1..]);
      SpaceIsSpace();
      assert init == init[..|init| - 1] + [init[|init| - 1]];
      StepsOutsideQuotes(init[..|init| - 1], init[|init| - 1], ' ', "", "");
    }
  }

  /** Every list of non-empty option strings written by the corrected
      writer reads back as the same list. */
  lemma WrittenRoundTrip(entries: seq<string>, sourceName: string)
    requires forall i :: 0 <= i < |entries| ==> entries[i] != ""
    ensures SplitArguments(Joined(QuotedAll(entries)), sourceName) == Ok(entries)
  {
    hide SplitRun, Joined, QuotedAll;
    var text := Joined(QuotedAll(entries));
    if entries == [] {
      JoinedNil();
      SplitRunCons(SplitStart, text);
    } else {
      JoinedRun(entries);
      var init := entries[..|entries| - 1];
      var e := entries[|entries| - 1];
      StepsOutsideQuotes(init, e, ' ', text, sourceName);
      assert init + [e] == entries;
    }
  }

  /** A config map as the program keeps it: every stored option string is
      non-empty and stored under the name of the option it sets. */
  predicate WellKeyed(m: map<string, string>, t: OptionTable)
  {
    forall n :: n in m ==> m[n] != "" && NameOf(t, m[n]) == Some(n)
  }

  /** Maps read from a file are well keyed when no option has the empty
      flag. */
  lemma OptionsMapWellKeyed(entries: seq<string>, t: OptionTable)
    requires "" !in t.byFlag
    ensures WellKeyed(OptionsMap(entries, t), t)
  {
    OptionsMapSpec(entries, t);
    assert SplitOptionFlagAndValue("").0 == "";
    assert NameOf(t, "") == None;
  }

  /** Merging keeps a map well keyed. */
  lemma MergedWellKeyed(m: map<string, string>, entries: seq<string>, t: OptionTable)
    requires "" !in t.byFlag && WellKeyed(m, t) && AllKnown(entries, t)
    ensures WellKeyed(Merged(m, entries, t).0, t)
  {
    MergedSpec(m, entries, t);
    OptionsMapWellKeyed(entries, t);
  }

  /** Writing the values of a well-keyed map in a key order and reading
      them back as option strings gives the map. */
  lemma {:induction false} OptionsMapOfValues(order: seq<string>, m: map<string, string>, t: OptionTable)
    requires WellKeyed(m, t)
    requires forall i :: 0 <= i < |order| ==> order[i] in m
    ensures OptionsMap(ValuesIn(order, m), t) == map n | n in m && n in order :: m[n]
    decreases |order|
  {
    hide NameOf;
    if order == [] {
    } else {
      var init := order[..|order| - 1];
      var k := order[|order| - 1];
      OptionsMapOfValues(init, m, t);
      var vs := ValuesIn(init, m);
      assert ValuesIn(order, m) == vs + [m[k]];
      assert (vs + [m[k]])[..|vs|] == vs;
      assert OptionsMap(vs + [m[k]], t) == OptionsMap(vs, t)[k := m[k]];
      forall n ensures n in order <==> n in init || n == k {
        assert order == init + [k];
      }
    }
  }

  /** The config file round trip: what the corrected writer writes for a
      well-keyed map, in any key order, reads back as that map. */
  lemma ReadAfterWrite(order: seq<string>, m: map<string, string>, t: OptionTable, configFilePath: string)
    requires WellKeyed(m, t) && IsKeyOrder(order, m)
    ensures SplitArguments(Joined(QuotedAll(ValuesIn(order, m))), "config file " + configFilePath)
            == Ok(ValuesIn(order, m))
    ensures OptionsMap(ValuesIn(order, m), t) == m
  {
    hide Joined, QuotedAll, SplitArguments, OptionsMap, ValuesIn, WellKeyed, IsKeyOrder, NameOf;
    ValuesNonEmpty(order, m, t);
    WrittenRoundTrip(ValuesIn(order, m), "config file " + configFilePath);
    OptionsMapOfValues(order, m, t);
    KeyOrderCovers(order, m);
  }

  lemma ValuesNonEmpty(order: seq<string>, m: map<string, string>, t: OptionTable)
    requires WellKeyed(m, t) && IsKeyOrder(order, m)
    ensures forall i :: 0 <= i < |order| ==> order[i] in m
    ensures forall i :: 0 <= i < |ValuesIn(order, m)| ==> ValuesIn(order, m)[i] != ""
  {
    forall i | 0 <= i < |ValuesIn(order, m)| ensures ValuesIn(order, m)[i] != "" {
      ValuesInAt(order, m, i);
    }
  }

  lemma KeyOrderCovers(order: seq<string>, m: map<string, string>)
    requires IsKeyOrder(order, m)
    ensures (map n | n in m && n in order :: m[n]) == m
  {
  }

  // ---------------------------------------------------------------------
  // The writer as written

  /** writeOptionsToConfigFile as written: an option string holding a space
      or one of the seven control characters is quoted and passed through
      escapeString, which escapes neither the backslash nor the quote. */
  function QuotedAsWritten(e: string): string
  {
    if exists k :: 0 <= k < |e| && (e[k] == ' ' || IsEscapable(e[k])) then "\"" + Escaped(e) + "\""
    else e
  }

  function QuotedAllAsWritten(entries: seq<string>): (r: seq<string>)
    ensures |r| == |entries|
    ensures forall i :: 0 <= i < |entries| ==> r[i] == QuotedAsWritten(entries[i])
  {
    seq(|entries|, i requires 0 <= i < |entries| => QuotedAsWritten(entries[i]))
  }

  /** The option string `-E=\\t x` (a backslash and a letter t, then a
      space) holds a space and no control character, so the writer as
      written puts it between quotes unchanged. */
  lemma AsWrittenQuotes()
    ensures QuotedAsWritten("-E=\\t x") == "\"" + "-E=" + "\\t" + " x" + "\""
  {
    var e := "-E=\\t x";
    assert e[5] == ' ';
    EscapedSpec(e);
  }

  /** ... and the tokenizer reads it back with a tab character in place of
      the backslash and the t. */
  lemma AsWrittenMisreadsBackslash(sourceName: string)
    ensures SplitArguments(QuotedAsWritten("-E=\\t x"), sourceName) == Ok(["-E=\t x"])
  {
    hide QuotedAsWritten, SplitRun, SplitStep, SplitFinish;
    AsWrittenQuotes();
    var a0 := "\"";
    var a1 := a0 + "-E=";
    var a2 := a1 + "\\t";
    var a3 := a2 + " x";
    var word := "-E=\t x";
    QuoteSteps([], word);
    assert Between([]) == SplitStart;
    SplitRunCons(SplitStart, a0);
    SplitRunCons(InQuote([], ""), a0[1..]);
    assert SplitRun(SplitStart, a0) == InQuote([], "");
    SplitRunConcat(SplitStart, a0, "-E=");
    QuotedPlainRun([], "", "-E=");
    assert SplitRun(SplitStart, a1) == InQuote([], "-E=");
    SplitRunConcat(SplitStart, a1, "\\t");
    EscapeInQuotesRun([], "-E=", '\t');
    assert EscapeInQuotes('\t') == "\\t";
    assert SplitRun(SplitStart, a2) == InQuote([], "-E=\t");
    SplitRunConcat(SplitStart, a2, " x");
    QuotedPlainRun([], "-E=\t", " x");
    assert SplitRun(SplitStart, a3) == InQuote([], word);
    SplitRunConcat(SplitStart, a3, "\"");
    SplitRunCons(InQuote([], word), "\"");
    SplitRunCons(InWord([], word), "\""[1..]);
    assert SplitRun(SplitStart, a3 + "\"") == InWord([], word);
    StepsOutsideQuotes([], word, ' ', a3 + "\"", sourceName);
    assert [] + [word] == [word];
    assert QuotedAsWritten("-E=\\t x") == a3 + "\"";
  }

  // ---------------------------------------------------------------------
  // Validation of option strings (checkForUnrecognizedOptions,
  // checkForDisallowedConfigOptions)

  function UnknownMessage(flag: string, sourceName: string): string
  {
    "Please remove unknown option " + flag + " given in the " + sourceName + "."
  }

  function DisallowedMessage(flags: string, sourceName: string): string
  {
    "Please remove option " + flags + " which is not allowed in the " + sourceName + "."
  }

  /** The index of the first option string naming no option, or the length. */
  function FirstUnknownIndex(arguments: seq<string>, t: OptionTable): (r: nat)
    ensures r <= |arguments|
    ensures forall k :: 0 <= k < r ==> NameOf(t, arguments[k]).Some?
    ensures r < |arguments| ==> NameOf(t, arguments[r]).None?
    decreases |arguments|
  {
    if arguments == [] then 0
    else if NameOf(t, arguments[0]).None? then 0
    else 1 + FirstUnknownIndex(arguments[1..], t)
  }

  /** No option string names no option exactly when the search runs off
      the end. */
  lemma FirstUnknownIndexAllKnown(arguments: seq<string>, t: OptionTable)
    ensures FirstUnknownIndex(arguments, t) == |arguments| <==> AllKnown(arguments, t)
  {
  }

  /** Looking an option up by the flag already split off finds the same
      option, whose name NameOf gives. */
  lemma LookupByFlag(t: OptionTable, argument: string)
    ensures LookupOption(t, SplitOptionFlagAndValue(argument).0) == LookupOption(t, argument)
    ensures NameOf(t, argument).None? <==> LookupOption(t, argument).None?
    ensures NameOf(t, argument).Some? ==> NameOf(t, argument).value == LookupOption(t, argument).value.name
  {
    SplitFlagAgain(argument);
  }

  /** checkForUnrecognizedOptions: the first option string whose flag names
      no option is fatal. */
  method CheckForUnrecognizedOptions(arguments: seq<string>, sourceName: string, t: OptionTable)
    returns (r: Result<()>)
    ensures r.Ok? <==> AllKnown(arguments, t)
    ensures r.Fail? ==>
              var i := FirstUnknownIndex(arguments, t);
              i < |arguments|
              && r.message == UnknownMessage(SplitOptionFlagAndValue(arguments[i]).0, sourceName)
  {
    hide SplitOptionFlagAndValue, LookupOption, NameOf, UnknownMessage;
    FirstUnknownIndexAllKnown(arguments, t);
    var i := 0;
    while i < |arguments|
      invariant 0 <= i <= |arguments|
      invariant i <= FirstUnknownIndex(arguments, t)
    {
      var flag := SplitOptionFlagAndValue(arguments[i]).0;
      LookupByFlag(t, arguments[i]);
      if LookupOption(t, flag).None? {
        return Fail(UnknownMessage(flag, sourceName));
      }
      i := i + 1;
    }
    return Ok(());
  }

  /** No option string sets an option that may not appear in the config
      file. */
  predicate Allowed(arguments: seq<string>, t: OptionTable)
  {
    forall i :: 0 <= i < |arguments| ==>
      NameOf(t, arguments[i]).None? || NameOf(t, arguments[i]).value !in t.disallowedInConfig
  }

  /** The index of the first option string setting a disallowed option, or
      the length. */
  function FirstDisallowedIndex(arguments: seq<string>, t: OptionTable): (r: nat)
    requires AllKnown(arguments, t)
    ensures r <= |arguments|
    ensures forall k :: 0 <= k < r ==> NameOf(t, arguments[k]).value !in t.disallowedInConfig
    ensures r < |arguments| ==> NameOf(t, arguments[r]).value in t.disallowedInConfig
    decreases |arguments|
  {
    if arguments == [] then 0
    else if NameOf(t, arguments[0]).value in t.disallowedInConfig then 0
    else
      assert AllKnown(arguments[1..], t) by {
        assert forall k :: 0 <= k < |arguments[1..]| ==> arguments[1..][k] == arguments[k + 1];
      }
      1 + FirstDisallowedIndex(arguments[1..], t)
  }

  /** checkForDisallowedConfigOptions: the first option string setting an
      option that may not appear in the config file is fatal. It runs after
      checkForUnrecognizedOptions, so every string names an option. */
  method CheckForDisallowedConfigOptions(arguments: seq<string>, sourceName: string, t: OptionTable)
    returns (r: Result<()>)
    requires AllKnown(arguments, t)
    ensures r.Ok? <==> Allowed(arguments, t)
    ensures r.Fail? ==>
              var i := FirstDisallowedIndex(arguments, t);
              i < |arguments|
              && r.message == DisallowedMessage(LookupOption(t, arguments[i]).value.flags, sourceName)
  {
    hide SplitOptionFlagAndValue, LookupOption, NameOf, DisallowedMessage;
    var i := 0;
    while i < |arguments|
      invariant 0 <= i <= |arguments|
      invariant i <= FirstDisallowedIndex(arguments, t)
    {
      var flag := SplitOptionFlagAndValue(arguments[i]).0;
      LookupByFlag(t, arguments[i]);
      var option := LookupOption(t, flag).value;
      if option.name in t.disallowedInConfig {
        return Fail(DisallowedMessage(option.flags, sourceName));
      }
      i := i + 1;
    }
    return Ok(());
  }

  // ---------------------------------------------------------------------
  // The -S and -U commands

  /** The option strings of a -S or -U option value, split like a command
      line. */
  function CommandOptions(options: string): Result<seq<string>>
  {
    SplitArguments(options, "command line")
  }

  /** The config file's entries. */
  function FileEntries(fileContents: string, configFilePath: string): Result<seq<string>>
  {
    SplitArguments(fileContents, "config file " + configFilePath)
  }

  /** When setConfigOptions gets past all its checks: the value splits into
      at least one option string, all known and allowed, and the config
      file splits. */
  predicate SetAccepted(options: string, fileContents: string, configFilePath: string, t: OptionTable)
  {
    CommandOptions(options).Ok? && CommandOptions(options).value != []
    && AllKnown(CommandOptions(options).value, t) && Allowed(CommandOptions(options).value, t)
    && FileEntries(fileContents, configFilePath).Ok?
  }

  /** setConfigOptions: the option strings of `options` merged into the
      config map read from `fileContents` (empty when there is no file),
      and the text to write back, or None when nothing changed. */
  method SetConfigOptions(options: string, fileContents: string, configFilePath: string, t: OptionTable)
    returns (r: Result<Option<string>>, ghost order: seq<string>)
    ensures r.Ok? <==> SetAccepted(options, fileContents, configFilePath, t)
    ensures CommandOptions(options) == Ok([]) ==>
              r == Fail("No options were specified to be set in the config file.")
    ensures r.Ok? ==>
              var news := CommandOptions(options).value;
              var m := OptionsMap(FileEntries(fileContents, configFilePath).value, t);
              var merged := m + OptionsMap(news, t);
              AllKnown(news, t)
              && (r.value.Some? <==> Merged(m, news, t).1)
              && (!Merged(m, news, t).1 ==> merged == m)
              && (r.value.Some? ==> IsKeyOrder(order, merged)
                                    && r.value.value == Joined(QuotedAllAsWritten(ValuesIn(order, merged))))
  {
    hide SplitArguments, OptionsMap, Merged, Joined, QuotedAllAsWritten, ValuesIn, AllKnown, Allowed;
    var split := SplitArgumentsString(options, "command line");
    if split.Fail? {
      return Fail(split.message), [];
    }
    var newOptionStrings := split.value;
    if |newOptionStrings| == 0 {
      return Fail("No options were specified to be set in the config file."), [];
    }
    var check := CheckForUnrecognizedOptions(newOptionStrings, "option value of " + t.setConfig.flags, t);
    if check.Fail? {
      return Fail(check.message), [];
    }
    check := CheckForDisallowedConfigOptions(newOptionStrings, "config file", t);
    if check.Fail? {
      return Fail(check.message), [];
    }
    var read := ReadConfigFileOptionsMap(fileContents, configFilePath, t);
    if read.Fail? {
      return Fail(read.message), [];
    }
    var merged, isChanged := MergeOptions(read.value, newOptionStrings, t);
    MergedSpec(read.value, newOptionStrings, t);
    var written;
    written, order := WriteOptionsToConfigFileIfChanged(merged, isChanged);
    r := Ok(written);
  }

  /** When unsetConfigOptions gets past all its checks: the config file
      exists, splits and holds an option, and the value splits into option
      strings that are all known and allowed. */
  predicate UnsetAccepted(options: string, fileContents: Option<string>, configFilePath: string, t: OptionTable)
  {
    fileContents.Some? && FileEntries(fileContents.value, configFilePath).Ok?
    && OptionsMap(FileEntries(fileContents.value, configFilePath).value, t) != map[]
    && CommandOptions(options).Ok?
    && AllKnown(CommandOptions(options).value, t) && Allowed(CommandOptions(options).value, t)
  }

  /** unsetConfigOptions: the options named by `options` removed from the
      config map read from the file (None when there is no file), and the
      text to write back, or None when nothing changed. */
  method UnsetConfigOptions(options: string, fileContents: Option<string>, configFilePath: string, t: OptionTable)
    returns (r: Result<Option<string>>, ghost order: seq<string>)
    ensures r.Ok? <==> UnsetAccepted(options, fileContents, configFilePath, t)
    ensures fileContents.None? ==>
              r == Fail("Config file \"" + configFilePath + "\" does not exist. Nothing to unset.")
    ensures r.Ok? ==>
              var news := CommandOptions(options).value;
              var m := OptionsMap(FileEntries(fileContents.value, configFilePath).value, t);
              AllKnown(news, t)
              && (r.value.Some? <==> Unsetted(m, news, t).1)
              && (r.value.Some? ==> IsKeyOrder(order, Unsetted(m, news, t).0)
                                    && r.value.value == Joined(QuotedAllAsWritten(ValuesIn(order, Unsetted(m, news, t).0))))
  {
    hide SplitArguments, OptionsMap, Unsetted, Joined, QuotedAllAsWritten, ValuesIn, AllKnown, Allowed;
    if fileContents.None? {
      return Fail("Config file \"" + configFilePath + "\" does not exist. Nothing to unset."), [];
    }
    var read := ReadConfigFileOptionsMap(fileContents.value, configFilePath, t);
    if read.Fail? {
      return Fail(read.message), [];
    }
    var m := read.value;
    if |m| == 0 {
      return Fail("Config file \"" + configFilePath + "\" is empty. Nothing to unset."), [];
    }
    var split := SplitArgumentsString(options, "command line");
    if split.Fail? {
      return Fail(split.message), [];
    }
    var newOptionStrings := split.value;
    var check := CheckForUnrecognizedOptions(newOptionStrings, "option value of " + t.unsetConfig.flags, t);
    if check.Fail? {
      return Fail(check.message), [];
    }
    check := CheckForDisallowedConfigOptions(newOptionStrings, "config file", t);
    if check.Fail? {
      return Fail(check.message), [];
    }
    var remaining, isChanged := UnsetOptions(m, newOptionStrings, t);
    var written;
    written, order := WriteOptionsToConfigFileIfChanged(remaining, isChanged);
    r := Ok(written);
  }

  /** What -U removes: exactly the named options, and the file is
      rewritten exactly when one of them was stored. */
  lemma UnsetRemovesNamed(fileContents: string, configFilePath: string, news: seq<string>, t: OptionTable)
    requires "" !in t.byFlag && FileEntries(fileContents, configFilePath).Ok? && AllKnown(news, t)
    ensures var m := OptionsMap(FileEntries(fileContents, configFilePath).value, t);
            Unsetted(m, news, t).0 == m - NamesOf(news, t)
            && (Unsetted(m, news, t).1 <==> m.Keys * NamesOf(news, t) != {})
  {
    var m := OptionsMap(FileEntries(fileContents, configFilePath).value, t);
    OptionsMapWellKeyed(FileEntries(fileContents, configFilePath).value, t);
    UnsettedSpec(m, news, t);
  }

  /** What the corrected writer writes for -S reads back as the merged map:
      the file's options overridden by the new ones. */
  lemma SetWritesMerged(fileContents: string, configFilePath: string, news: seq<string>,
                        order: seq<string>, t: OptionTable)
    requires "" !in t.byFlag && FileEntries(fileContents, configFilePath).Ok? && AllKnown(news, t)
    requires var m := OptionsMap(FileEntries(fileContents, configFilePath).value, t);
             IsKeyOrder(order, m + OptionsMap(news, t))
    ensures var m := OptionsMap(FileEntries(fileContents, configFilePath).value, t);
            var merged := m + OptionsMap(news, t);
            var text := Joined(QuotedAll(ValuesIn(order, merged)));
            FileEntries(text, configFilePath).Ok?
            && OptionsMap(FileEntries(text, configFilePath).value, t) == merged
  {
    var m := OptionsMap(FileEntries(fileContents, configFilePath).value, t);
    OptionsMapWellKeyed(FileEntries(fileContents, configFilePath).value, t);
    MergedWellKeyed(m, news, t);
    MergedSpec(m, news, t);
    ReadAfterWrite(order, m + OptionsMap(news, t), t, configFilePath);
  }

  lemma {:induction false} EscapedInQuotesPlain(e: string)
    requires forall k :: 0 <= k < |e| ==> e[k] != '\\' && e[k] != '"'
    ensures EscapedInQuotes(e) == Escaped(e)
    decreases |e|
  {
    if e != [] {
      EscapedInQuotesPlain(e[..|e| - 1]);
    }
  }

  /** The correction changes only the option strings the writer as written
      gets wrong: without backslashes, quotes and white space other than
      the space and the control characters, both write the same text. */
  lemma QuotedAgreesAsWritten(e: string)
    requires e != ""
    requires forall k :: 0 <= k < |e| ==> e[k] != '\\' && e[k] != '"'
    requires forall k :: 0 <= k < |e| && IsSpace(e[k]) ==> e[k] == ' ' || IsEscapable(e[k])
    ensures Quoted(e) == QuotedAsWritten(e)
  {
    EscapedInQuotesPlain(e);
    assert e[0] != '\\';
  }

  /** An option string the writer as written gets right: no backslash, no
      quote, and no white space but the space and the control characters it
      quotes for. */
  predicate WritesBack(e: string)
  {
    e != ""
    && (forall k :: 0 <= k < |e| ==> e[k] != '\\' && e[k] != '"')
    && (forall k :: 0 <= k < |e| && IsSpace(e[k]) ==> e[k] == ' ' || IsEscapable(e[k]))
  }

  lemma QuotedAllAgrees(entries: seq<string>)
    requires forall i :: 0 <= i < |entries| ==> WritesBack(entries[i])
    ensures QuotedAllAsWritten(entries) == QuotedAll(entries)
  {
    hide Quoted, QuotedAsWritten;
    forall i | 0 <= i < |entries|
      ensures QuotedAllAsWritten(entries)[i] == QuotedAll(entries)[i]
    {
      QuotedAgreesAsWritten(entries[i]);
    }
  }

  /** The round trip of the writer as written: option strings it gets
      right read back as the same list. */
  lemma WrittenRoundTripAsWritten(entries: seq<string>, sourceName: string)
    requires forall i :: 0 <= i < |entries| ==> WritesBack(entries[i])
    ensures SplitArguments(Joined(QuotedAllAsWritten(entries)), sourceName) == Ok(entries)
  {
    hide Joined, QuotedAll, QuotedAllAsWritten, SplitArguments;
    QuotedAllAgrees(entries);
    WrittenRoundTrip(entries, sourceName);
  }

  /** The config file round trip as written: a well-keyed map whose option
      strings the writer gets right reads back as that map, in any key
      order. */
  lemma ReadAfterWriteAsWritten(order: seq<string>, m: map<string, string>, t: OptionTable, configFilePath: string)
    requires WellKeyed(m, t) && IsKeyOrder(order, m)
    requires forall n :: n in m ==> WritesBack(m[n])
    ensures SplitArguments(Joined(QuotedAllAsWritten(ValuesIn(order, m))), "config file " + configFilePath)
            == Ok(ValuesIn(order, m))
    ensures OptionsMap(ValuesIn(order, m), t) == m
  {
    hide Joined, QuotedAll, QuotedAllAsWritten, SplitArguments, OptionsMap, ValuesIn, WellKeyed, IsKeyOrder, NameOf;
    ReadAfterWrite(order, m, t, configFilePath);
    ValuesNonEmpty(order, m, t);
    forall i | 0 <= i < |ValuesIn(order, m)|
      ensures WritesBack(ValuesIn(order, m)[i])
    {
      ValuesInAt(order, m, i);
    }
    QuotedAllAgrees(ValuesIn(order, m));
  }

  /** What -S writes reads back as the merged map, when the writer as
      written gets every option string of it right. */
  lemma SetWritesMergedAsWritten(fileContents: string, configFilePath: string, news: seq<string>,
                                 order: seq<string>, t: OptionTable)
    requires "" !in t.byFlag && FileEntries(fileContents, configFilePath).Ok? && AllKnown(news, t)
    requires var m := OptionsMap(FileEntries(fileContents, configFilePath).value, t);
             IsKeyOrder(order, m + OptionsMap(news, t))
             && forall n :: n in m + OptionsMap(news, t) ==> WritesBack((m + OptionsMap(news, t))[n])
    ensures var m := OptionsMap(FileEntries(fileContents, configFilePath).value, t);
            var merged := m + OptionsMap(news, t);
            var text := Joined(QuotedAllAsWritten(ValuesIn(order, merged)));
            FileEntries(text, configFilePath).Ok?
            && OptionsMap(FileEntries(text, configFilePath).value, t) == merged
  {
    var m := OptionsMap(FileEntries(fileContents, configFilePath).value, t);
    OptionsMapWellKeyed(FileEntries(fileContents, configFilePath).value, t);
    MergedWellKeyed(m, news, t);
    MergedSpec(m, news, t);
    ReadAfterWriteAsWritten(order, m + OptionsMap(news, t), t, configFilePath);
  }
}
