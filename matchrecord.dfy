/** The per-line match record of ff/matching.go (currentLineMatchIndexInfo)
    and the exact-mode search that fills it. */
module MatchRecord {
  import opened Util
  import opened Matching

  lemma SpansAppend(s: seq<Span>, acc: seq<Span>, x: Span)
    ensures (s + acc) + [x] == s + (acc + [x])
  {
  }

  class MatchInfo {
    var matched: bool
    var minIndex: int
    var spans: seq<Span>

    /** The record keeps minIndex at the smallest begin index, MaxInt32 when empty. */
    ghost predicate Valid()
      reads this
    {
      minIndex == MinBegin(spans, |spans|, MaxInt32)
    }

    constructor ()
      ensures !matched && spans == [] && minIndex == 0
    {
      matched, minIndex, spans := false, 0, [];
    }

    /** resetCurrentLineMatchIndexInfo. */
    method Reset()
      modifies this
      ensures Valid()
      ensures !matched && minIndex == MaxInt32 && spans == []
    {
      matched := false;
      minIndex := MaxInt32;
      spans := [];
    }

    /** addMatchSpan: appends one span and keeps the minimum begin index. */
    method AddMatchSpan(beginIndex: int, endIndex: int)
      requires Valid()
      modifies this
      ensures spans == old(spans) + [Span(beginIndex, endIndex)]
      ensures matched == old(matched)
      ensures minIndex == if old(minIndex) > beginIndex then beginIndex else old(minIndex)
      ensures Valid()
    {
      spans := spans + [Span(beginIndex, endIndex)];
      if minIndex > beginIndex {
        minIndex := beginIndex;
      }
      MinBeginPrefix(old(spans), [Span(beginIndex, endIndex)], |old(spans)|, MaxInt32);
    }

    /** The scan of getMatchIndexesByExactMatch for one term: records every
        accepted span and reports whether there were at least `minCount`. */
    method CollectTermSpans(a: seq<int>, t: seq<int>, minCount: int, wholeWord: bool, nonWord: int -> bool)
      returns (enough: bool)
      requires |t| > 0 && Valid()
      modifies this
      ensures Valid() && matched == old(matched)
      ensures spans == old(spans) + TermSpans(a, t, 0, wholeWord, nonWord)
      ensures enough <==> |TermSpans(a, t, 0, wholeWord, nonWord)| >= minCount
    {
      ghost var s0 := spans;
      ghost var m0 := matched;
      ghost var total := TermSpans(a, t, 0, wholeWord, nonWord);
      ghost var acc: seq<Span> := [];  // the spans this scan has added
      assert acc + total == total;
      var stringStartIndex := 0;
      var matchCount := 0;
      while true
        invariant stringStartIndex <= |a|
        invariant Valid() && matched == m0
        invariant spans == s0 + acc
        invariant acc + TermSpans(a, t, stringStartIndex, wholeWord, nonWord) == total
        invariant |acc| == matchCount
        decreases |a| - stringStartIndex
      {
        var beginIndex := IntArrayIndexOf(a, t, stringStartIndex);
        if beginIndex < 0 {
          assert acc + [] == acc;
          return matchCount >= minCount;
        }
        var endIndex := beginIndex + |t|;
        var rejected := wholeWord && (RejectedAtBegin(a, beginIndex, nonWord) || RejectedAtEnd(a, endIndex, nonWord));
        CollectStep(a, t, stringStartIndex, beginIndex, wholeWord, nonWord, rejected, acc, total);
        // an occurrence rejected as a whole word is skipped; either way the
        // scan resumes after it
        if !rejected {
          AddMatchSpan(beginIndex, endIndex);
          SpansAppend(s0, acc, Span(beginIndex, endIndex));
          acc := acc + [Span(beginIndex, endIndex)];
          matchCount := matchCount + 1;
          if endIndex >= |a| {
            assert acc + [] == acc;
            return matchCount >= minCount;
          }
        }
        stringStartIndex := endIndex;
      }
    }

    /** getMatchIndexesByExactMatch: fills the record with ExactMatch. */
    method GetMatchIndexesByExactMatch(a: seq<int>, p: SearchTerms, wholeWord: bool, nonWord: int -> bool)
      requires p.Valid()
      modifies this
      ensures Valid()
      ensures matched == ExactMatch(a, p, wholeWord, nonWord).matched
      ensures spans == ExactMatch(a, p, wholeWord, nonWord).spans
    {
      Reset();
      if |p.exclude| > 0 {
        var excluded := IsMatchingIntArray(a, p.exclude, true, wholeWord, nonWord);
        if excluded {
          return;
        }
      }
      CollectAllTerms(a, p, wholeWord, nonWord);
    }

    /** The term loop of getMatchIndexesByExactMatch: each term's spans are
        recorded in turn, and the first term short of its count stops the
        loop with the record unmatched. */
    method CollectAllTerms(a: seq<int>, p: SearchTerms, wholeWord: bool, nonWord: int -> bool)
      requires p.Valid() && Valid() && !matched && spans == []
      modifies this
      ensures Valid()
      ensures matched == MatchTerms(a, p, 0, wholeWord, nonWord).matched
      ensures spans == MatchTerms(a, p, 0, wholeWord, nonWord).spans
    {
      var pos := 0;
      while pos < |p.use|
        invariant 0 <= pos <= |p.use|
        invariant Valid() && !matched
        invariant spans == Gathered(a, p, pos, wholeWord, nonWord)
        invariant EnoughBelow(a, p, pos, wholeWord, nonWord)
      {
        var enough := CollectTermSpans(a, p.use[pos], p.counts[pos], wholeWord, nonWord);
        if !enough {
          GatheredStop(a, p, pos, wholeWord, nonWord);
          return;
        }
        pos := pos + 1;
      }
      GatheredAll(a, p, wholeWord, nonWord);
      matched := true;
    }

    /** isLineMatchingWithFullInfo (exact mode): an empty line is false and
      leaves the record alone; otherwise the record is refilled from the
      (case-folded) line and the verdict is `matched` XOR `invertMatch`. */
    method IsLineMatchingWithFullInfo(line: string, p: SearchTerms, o: MatchOptions,
                                      lowerRune: char -> char, nonWord: int -> bool) returns (r: bool)
      requires p.Valid()
      modifies this
      ensures line == "" ==> !r && matched == old(matched) && spans == old(spans) && minIndex == old(minIndex)
      ensures line != "" ==> (Valid()
        && matched == ExactMatch(LineCodePoints(line, o, lowerRune), p, o.wholeWord, nonWord).matched
        && spans == ExactMatch(LineCodePoints(line, o, lowerRune), p, o.wholeWord, nonWord).spans
        && r == (matched != o.invertMatch))
    {
      if line == "" {
        return false;
      }
      CheckLineMatchFullInfo(line, p, o, lowerRune, nonWord);
      r := matched != o.invertMatch;
    }

    /** checkLineMatchFullInfo (exact mode). */
    method CheckLineMatchFullInfo(line: string, p: SearchTerms, o: MatchOptions,
                                  lowerRune: char -> char, nonWord: int -> bool)
      requires p.Valid()
      modifies this
      ensures line == "" ==> matched == old(matched) && spans == old(spans) && minIndex == old(minIndex)
      ensures line != "" ==> (Valid()
        && matched == ExactMatch(LineCodePoints(line, o, lowerRune), p, o.wholeWord, nonWord).matched
        && spans == ExactMatch(LineCodePoints(line, o, lowerRune), p, o.wholeWord, nonWord).spans)
    {
      if line == "" {
        return;
      }
      var l := if o.ignoreCase then ToLower(line, lowerRune) else line;
      var a := StringToIntArray(l);
      GetMatchIndexesByExactMatch(a, p, o.wholeWord, nonWord);
    }
  }
}
