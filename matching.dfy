/** The exact-mode match engine of ff/matching.go: preparing the search terms,
    the name filters, substring search over code-point arrays, whole-word
    boundaries, multi-term matching with per-term minimum counts and
    exclusion terms, and the per-line match record. */
module Matching {
  import opened Wrappers
  import opened Util

  const MaxInt32: int := 0x7FFF_FFFF

  // =====================================================================
  // Term preparation (prepareSearchString)

  /** Number of times `x` occurs in `s`. */
  function Occ(s: seq<string>, x: string): nat
  {
    if s == [] then 0 else Occ(s[..|s| - 1], x) + (if s[|s| - 1] == x then 1 else 0)
  }

  lemma OccAppend(p: seq<string>, x: string, y: string)
    ensures Occ(p + [x], y) == Occ(p, y) + (if x == y then 1 else 0)
  {
    assert (p + [x])[..|p|] == p;
  }

  /** The non-empty strings of `s` at their first occurrence, in order. */
  function DistinctTerms(s: seq<string>): (r: seq<string>)
    decreases |s|
  {
    if s == [] then []
    else
      var p := s[..|s| - 1];
      var x := s[|s| - 1];
      if x == "" || x in p then DistinctTerms(p) else DistinctTerms(p) + [x]
  }

  /** The distinct terms are exactly the non-empty inputs, each listed once. */
  lemma {:induction false} DistinctTermsSpec(s: seq<string>)
    ensures forall x :: x in DistinctTerms(s) <==> x in s && x != ""
    ensures forall i, j :: 0 <= i < j < |DistinctTerms(s)| ==> DistinctTerms(s)[i] != DistinctTerms(s)[j]
    decreases |s|
  {
    if s != [] {
      var p := s[..|s| - 1];
      DistinctTermsSpec(p);
      assert s == p + [s[|s| - 1]];
    }
  }

  /** Sum of the occurrence counts of `terms` in `s`. */
  function SumOcc(s: seq<string>, terms: seq<string>): nat
  {
    if terms == [] then 0 else SumOcc(s, terms[..|terms| - 1]) + Occ(s, terms[|terms| - 1])
  }

  lemma {:induction false} SumOccExtend(p: seq<string>, x: string, terms: seq<string>)
    requires forall i, j :: 0 <= i < j < |terms| ==> terms[i] != terms[j]
    ensures SumOcc(p + [x], terms) == SumOcc(p, terms) + (if x in terms then 1 else 0)
  {
    if terms != [] {
      var q := terms[..|terms| - 1];
      SumOccExtend(p, x, q);
      OccAppend(p, x, terms[|terms| - 1]);
      assert x in terms <==> x in q || x == terms[|terms| - 1];
      assert x == terms[|terms| - 1] ==> x !in q;
    }
  }

  /** The per-term counts add up to the number of non-empty search strings. */
  lemma {:induction false} CountsAddUp(s: seq<string>)
    ensures SumOcc(s, DistinctTerms(s)) == |s| - Occ(s, "")
    decreases |s|
  {
    if s != [] {
      var p := s[..|s| - 1];
      var x := s[|s| - 1];
      assert s == p + [x];
      CountsAddUp(p);
      DistinctTermsSpec(p);
      DistinctTermsSpec(s);
      var d := DistinctTerms(p);
      OccAppend(p, x, "");
      SumOccExtend(p, x, d);
      if x == "" || x in p {
      } else {
        assert SumOcc(s, d + [x]) == SumOcc(s, d) + Occ(s, x) by {
          assert (d + [x])[..|d + [x]| - 1] == d;
        }
        OccAppend(p, x, x);
        OccNotIn(p, x);
      }
    }
  }

  /** Some string before index `i` equals `x`. */
  predicate SeenBefore(args: seq<string>, x: string, i: nat)
    requires i <= |args|
  {
    i > 0 && (args[i - 1] == x || SeenBefore(args, x, i - 1))
  }

  lemma {:induction false} SeenBeforeIn(args: seq<string>, x: string, i: nat)
    requires i <= |args|
    ensures SeenBefore(args, x, i) <==> x in args[..i]
  {
    if i > 0 {
      SeenBeforeIn(args, x, i - 1);
      assert args[..i] == args[..i - 1] + [args[i - 1]];
    }
  }

  /** Number of indexes in [lo, hi) holding `x`. */
  function CountFrom(args: seq<string>, x: string, lo: nat, hi: nat): nat
    requires lo <= hi <= |args|
    decreases hi - lo
  {
    if lo == hi then 0 else CountFrom(args, x, lo, hi - 1) + (if args[hi - 1] == x then 1 else 0)
  }

  /** A string that does not occur is counted zero times. */
  lemma {:induction false} OccNotIn(s: seq<string>, x: string)
    requires x !in s
    ensures Occ(s, x) == 0
    decreases |s|
  {
    if s != [] {
      OccNotIn(s[..|s| - 1], x);
    }
  }

  /** CountFrom over [lo, hi) is the difference of the prefix counts. */
  lemma {:induction false} CountFromPrefix(args: seq<string>, x: string, lo: nat, hi: nat)
    requires lo <= hi <= |args|
    ensures CountFrom(args, x, lo, hi) + Occ(args[..lo], x) == Occ(args[..hi], x)
    decreases hi - lo
  {
    if lo < hi {
      CountFromPrefix(args, x, lo, hi - 1);
      assert args[..hi][..hi - 1] == args[..hi - 1];
    }
  }

  /** The de-duplication loop of prepareSearchString: each non-empty string is
      kept at its first occurrence, later copies are blanked out in place, and
      the number of copies becomes the term's minimum count. */
  method DeduplicateSearchStrings(args: seq<string>) returns (terms: seq<string>, counts: seq<int>)
    ensures terms == DistinctTerms(args)
    ensures |counts| == |terms|
    ensures forall k :: 0 <= k < |terms| ==> counts[k] == Occ(args, terms[k]) >= 1
  {
    var n := |args|;
    var ss := new string[n](k requires 0 <= k < n => args[k]);
    terms, counts := [], [];
    var i := 0;
    while i < n
      invariant 0 <= i <= n
      invariant terms == DistinctTerms(args[..i])
      invariant |counts| == |terms|
      invariant forall k :: 0 <= k < |terms| ==> counts[k] == Occ(args, terms[k]) >= 1
      invariant forall k :: i <= k < n ==> ss[k] == Blanked(args, i, k)
    {
      assert args[..i + 1][..i] == args[..i];
      assert args[..i + 1] == args[..i] + [args[i]];
      SeenBeforeIn(args, args[i], i);
      if ss[i] == "" {
        BlankedNext(args, i);
        i := i + 1;
        continue;
      }
      var count := BlankLaterCopies(ss, args, i);
      terms := terms + [args[i]];
      counts := counts + [count];
      i := i + 1;
    }
    assert args[..n] == args;
  }

  /** What slot `k` of the working copy holds once the strings before `i` were
      processed: blank if an earlier string equals it. */
  function Blanked(args: seq<string>, i: nat, k: nat): string
    requires i <= k < |args|
  {
    if SeenBefore(args, args[k], i) then "" else args[k]
  }

  lemma BlankedNext(args: seq<string>, i: nat)
    requires i < |args|
    requires Blanked(args, i, i) == ""
    ensures forall k :: i + 1 <= k < |args| ==> Blanked(args, i + 1, k) == Blanked(args, i, k)
  {
  }

  /** The inner loop: counts the copies of args[i] and blanks the later ones. */
  method BlankLaterCopies(ss: array<string>, args: seq<string>, i: nat) returns (count: int)
    requires ss.Length == |args| && i < |args|
    requires forall k :: i <= k < |args| ==> ss[k] == Blanked(args, i, k)
    requires ss[i] != ""
    modifies ss
    ensures count == Occ(args, args[i]) >= 1
    ensures forall k :: i + 1 <= k < |args| ==> ss[k] == Blanked(args, i + 1, k)
  {
    var n := |args|;
    count := 1;
    var j := i + 1;
    while j < n
      invariant i + 1 <= j <= n
      invariant ss[i] == args[i]
      invariant count == 1 + CountFrom(args, args[i], i + 1, j)
      invariant forall k :: i < k < j ==> ss[k] == Blanked(args, i + 1, k)
      invariant forall k :: j <= k < n ==> ss[k] == Blanked(args, i, k)
    {
      BlankStep(args, i, j);
      if ss[j] == "" {
        j := j + 1;
        continue;
      }
      if ss[i] == ss[j] {
        count := count + 1;
        ss[j] := "";
      }
      j := j + 1;
    }
    CountFromPrefix(args, args[i], i + 1, n);
    FirstCopyCounted(args, i);
    assert args[..n] == args;
  }

  /** One step of the inner loop, on values. */
  lemma BlankStep(args: seq<string>, i: nat, j: nat)
    requires i < j < |args|
    requires args[i] != "" && !SeenBefore(args, args[i], i)
    ensures Blanked(args, i, j) == args[i] <==> args[j] == args[i]
    ensures Blanked(args, i + 1, j) == if args[j] == args[i] then "" else Blanked(args, i, j)
  {
  }

  /** The first copy of a string is the only one up to and including it. */
  lemma FirstCopyCounted(args: seq<string>, i: nat)
    requires i < |args| && !SeenBefore(args, args[i], i)
    ensures Occ(args[..i + 1], args[i]) == 1
  {
    SeenBeforeIn(args, args[i], i);
    OccNotIn(args[..i], args[i]);
    assert args[..i + 1][..i] == args[..i];
  }

  // =====================================================================
  // Splitting option values (splitAndTrim)

  /** Go's unicode.IsSpace: the White_Space property. */
  predicate IsSpace(c: char)
  {
    var x := c as int;
    (9 <= x <= 13) || x == 0x20 || x == 0x85 || x == 0xA0 || x == 0x1680
    || (0x2000 <= x <= 0x200A) || x == 0x2028 || x == 0x2029 || x == 0x202F
    || x == 0x205F || x == 0x3000
  }

  /** strings.TrimSpace. */
  function TrimSpace(s: string): (r: string)
    ensures |r| <= |s|
    decreases |s|
  {
    if s == [] then s
    else if IsSpace(s[0]) then TrimSpace(s[1..])
    else if IsSpace(s[|s| - 1]) then TrimSpace(s[..|s| - 1])
    else s
  }

  /** TrimSpace removes white space at both ends only: what is left starts
      and ends with a non-space, keeps only characters of the input, and is
      empty exactly for an all-space input. */
  lemma {:induction false} TrimSpaceSpec(s: string)
    ensures var r := TrimSpace(s);
            |r| > 0 ==> !IsSpace(r[0]) && !IsSpace(r[|r| - 1])
    ensures forall c :: c in TrimSpace(s) ==> c in s
    ensures TrimSpace(s) == "" <==> forall k :: 0 <= k < |s| ==> IsSpace(s[k])
    decreases |s|
  {
    if s == [] {
    } else if IsSpace(s[0]) {
      TrimSpaceSpec(s[1..]);
      assert forall k :: 1 <= k < |s| ==> s[k] == s[1..][k - 1];
    } else if IsSpace(s[|s| - 1]) {
      var q := s[..|s| - 1];
      TrimSpaceSpec(q);
      assert forall c :: c in q ==> c in s;
      assert forall k :: 0 <= k < |s| - 1 ==> s[k] == q[k];
    } else {
    }
  }

  /** Index of the first `d` in `s`, or |s|. */
  function FirstIndexOf(s: string, d: char): (i: nat)
    ensures i <= |s|
    ensures i < |s| ==> s[i] == d
  {
    if s == [] || s[0] == d then 0 else 1 + FirstIndexOf(s[1..], d)
  }

  /** There is no `d` before FirstIndexOf. */
  lemma {:induction false} FirstIndexOfFirst(s: string, d: char)
    ensures d !in s[..FirstIndexOf(s, d)]
  {
    if s != [] && s[0] != d {
      FirstIndexOfFirst(s[1..], d);
      assert s[..FirstIndexOf(s, d)] == [s[0]] + s[1..][..FirstIndexOf(s[1..], d)];
    }
  }

  /** strings.Split for a one-character separator. */
  function Split(s: string, d: char): (r: seq<string>)
    ensures |r| >= 1
    decreases |s|
  {
    var i := FirstIndexOf(s, d);
    if i == |s| then [s] else [s[..i]] + Split(s[i + 1..], d)
  }

  /** No piece contains the separator. */
  lemma {:induction false} SplitNoDelimiter(s: string, d: char)
    ensures forall k :: 0 <= k < |Split(s, d)| ==> d !in Split(s, d)[k]
    decreases |s|
  {
    var i := FirstIndexOf(s, d);
    FirstIndexOfFirst(s, d);
    if i < |s| {
      SplitNoDelimiter(s[i + 1..], d);
    } else {
      assert s[..i] == s;
    }
  }

  /** Joining the pieces with the separator. */
  function Join(pieces: seq<string>, d: char): string
  {
    if |pieces| <= 1 then (if pieces == [] then "" else pieces[0])
    else pieces[0] + [d] + Join(pieces[1..], d)
  }

  /** Split is undone by Join. */
  lemma {:induction false} JoinSplit(s: string, d: char)
    ensures Join(Split(s, d), d) == s
    decreases |s|
  {
    var i := FirstIndexOf(s, d);
    if i < |s| {
      var rest := s[i + 1..];
      JoinSplit(rest, d);
      var pieces := Split(rest, d);
      assert Split(s, d) == [s[..i]] + pieces;
      assert Join([s[..i]] + pieces, d) == s[..i] + [d] + Join(pieces, d) by {
        assert ([s[..i]] + pieces)[1..] == pieces;
      }
      assert s == s[..i] + [d] + rest;
    }
  }

  /** The trimmed, non-empty strings of `pieces`, in order. */
  function TrimmedNonEmpty(pieces: seq<string>): (r: seq<string>)
    ensures |r| <= |pieces|
  {
    if pieces == [] then []
    else
      var t := TrimSpace(pieces[0]);
      (if t == "" then [] else [t]) + TrimmedNonEmpty(pieces[1..])
  }

  /** A piece splitAndTrim may return: non-empty, no white space at either
      end, no separator. */
  predicate CleanPiece(x: string, d: char)
  {
    x != "" && !IsSpace(x[0]) && !IsSpace(x[|x| - 1]) && d !in x
  }

  /** Every kept piece is clean when no input piece holds the separator. */
  lemma {:induction false} TrimmedNonEmptySpec(pieces: seq<string>, d: char)
    requires forall k :: 0 <= k < |pieces| ==> d !in pieces[k]
    ensures forall x :: x in TrimmedNonEmpty(pieces) ==> CleanPiece(x, d)
  {
    if pieces != [] {
      TrimmedNonEmptySpec(pieces[1..], d);
      var p := pieces[0];
      TrimSpaceSpec(p);
      var t := TrimSpace(p);
      assert d !in p;
      assert t != "" ==> CleanPiece(t, d);
    }
  }

  /** One step of the splitAndTrim loop, on values. */
  lemma TrimStep(a: seq<string>, i: nat, r: seq<string>, total: seq<string>)
    requires i < |a| && r + TrimmedNonEmpty(a[i..]) == total
    ensures var t := TrimSpace(a[i]);
            (if t == "" then r else r + [t]) + TrimmedNonEmpty(a[i + 1..]) == total
  {
    assert a[i..][1..] == a[i + 1..];
    var t := TrimSpace(a[i]);
    var rest := TrimmedNonEmpty(a[i + 1..]);
    if t != "" {
      assert (r + [t]) + rest == r + ([t] + rest);
    } else {
      assert [] + rest == rest;
    }
  }

  /** splitAndTrim. */
  method SplitAndTrim(str: string, delimiter: char) returns (r: seq<string>)
    ensures r == TrimmedNonEmpty(Split(str, delimiter))
    ensures forall k :: 0 <= k < |r| ==> r[k] != "" && delimiter !in r[k]
    ensures forall k :: 0 <= k < |r| ==> !IsSpace(r[k][0]) && !IsSpace(r[k][|r[k]| - 1])
  {
    var a := Split(str, delimiter);
    ghost var total := TrimmedNonEmpty(a);
    r := [];
    var i := 0;
    while i < |a|
      invariant 0 <= i <= |a|
      invariant r + TrimmedNonEmpty(a[i..]) == total
    {
      TrimStep(a, i, r, total);
      var t := TrimSpace(a[i]);
      if t != "" {
        r := r + [t];
      }
      i := i + 1;
    }
    assert r + [] == r;
    SplitNoDelimiter(str, delimiter);
    TrimmedNonEmptySpec(a, delimiter);
    assert forall k :: 0 <= k < |r| ==> r[k] in r;
  }

  // =====================================================================
  // Name filters (shouldIncludeFileByNameFilters / shouldIncludeDirByNameFilters)

  /** matchesAnyGlob, with filepath.Match taken as the given relation. */
  predicate MatchesAnyGlob(baseName: string, globs: seq<string>, globMatch: (string, string) -> bool)
  {
    exists k :: 0 <= k < |globs| && globMatch(globs[k], baseName)
  }

  /** The four glob lists, fixed before the traversal starts. */
  datatype NameFilters = NameFilters(
    fileInclude: seq<string>, fileExclude: seq<string>,
    dirInclude: seq<string>, dirExclude: seq<string>)

  /** The shared precedence: an include match admits, otherwise an exclude
      match rejects, otherwise the name is admitted iff no include globs exist. */
  function ShouldIncludeByNameFilters(baseName: string, includeGlobs: seq<string>, excludeGlobs: seq<string>,
                                      globMatch: (string, string) -> bool): (r: bool)
    ensures r <==> MatchesAnyGlob(baseName, includeGlobs, globMatch)
                   || (!MatchesAnyGlob(baseName, excludeGlobs, globMatch) && |includeGlobs| == 0)
  {
    if MatchesAnyGlob(baseName, includeGlobs, globMatch) then true
    else if MatchesAnyGlob(baseName, excludeGlobs, globMatch) then false
    else |includeGlobs| == 0
  }

  function ShouldIncludeFileByNameFilters(f: NameFilters, name: string, globMatch: (string, string) -> bool): (r: bool)
    ensures r == ShouldIncludeByNameFilters(name, f.fileInclude, f.fileExclude, globMatch)
  {
    ShouldIncludeByNameFilters(name, f.fileInclude, f.fileExclude, globMatch)
  }

  function ShouldIncludeDirByNameFilters(f: NameFilters, name: string, globMatch: (string, string) -> bool): (r: bool)
    ensures r == ShouldIncludeByNameFilters(name, f.dirInclude, f.dirExclude, globMatch)
  {
    ShouldIncludeByNameFilters(name, f.dirInclude, f.dirExclude, globMatch)
  }

  /** The file verdict reads only the file globs and the dir verdict only the
      dir globs. */
  lemma FiltersIndependent(f: NameFilters, name: string, globMatch: (string, string) -> bool,
                           otherInclude: seq<string>, otherExclude: seq<string>)
    ensures ShouldIncludeFileByNameFilters(f.(dirInclude := otherInclude, dirExclude := otherExclude), name, globMatch)
         == ShouldIncludeFileByNameFilters(f, name, globMatch)
    ensures ShouldIncludeDirByNameFilters(f.(fileInclude := otherInclude, fileExclude := otherExclude), name, globMatch)
         == ShouldIncludeDirByNameFilters(f, name, globMatch)
  {
  }

  // =====================================================================
  // Control characters

  /** isControlCharacter. */
  predicate IsControlCharacter(c: int)
  {
    (c == 127) || ((0 <= c <= 31) && c != 9 && c != 10 && c != 13)
  }

  lemma ControlCharacterSet(c: int)
    ensures IsControlCharacter(c) <==> (0 <= c <= 8 || c == 11 || c == 12 || 14 <= c <= 31 || c == 127)
  {
  }

  /** A code-point array holds a control character somewhere. */
  predicate HasControl(a: seq<int>)
  {
    exists i :: 0 <= i < |a| && IsControlCharacter(a[i])
  }

  /** intArrayHasControlCharacters (and hasControlCharacters on the code points). */
  method IntArrayHasControlCharacters(a: seq<int>) returns (r: bool)
    ensures r <==> HasControl(a)
    ensures r <==> exists i :: 0 <= i < |a| && (a[i] == 127 || 0 <= a[i] <= 8 || a[i] == 11 || a[i] == 12 || 14 <= a[i] <= 31)
  {
    var i := 0;
    while i < |a|
      invariant 0 <= i <= |a|
      invariant forall k :: 0 <= k < i ==> !IsControlCharacter(a[k])
    {
      if IsControlCharacter(a[i]) {
        return true;
      }
      i := i + 1;
    }
    return false;
  }

  // =====================================================================
  // Substring search (intArrayIndexOf)

  /** `toFind` occurs in `toSearch` at index `i`. */
  predicate OccursAt(toSearch: seq<int>, toFind: seq<int>, i: int)
  {
    0 <= i && i + |toFind| <= |toSearch| && toSearch[i..i + |toFind|] == toFind
  }

  /** The smallest index at or after `start` at which `toFind` occurs, or -1. */
  function IndexOf(toSearch: seq<int>, toFind: seq<int>, start: nat): (r: int)
    ensures r == -1 || (start <= r && r + |toFind| <= |toSearch|)
    decreases |toSearch| - start
  {
    if start + |toFind| > |toSearch| then -1
    else if toSearch[start..start + |toFind|] == toFind then start
    else IndexOf(toSearch, toFind, start + 1)
  }

  /** What IndexOf finds is an occurrence. */
  lemma {:induction false} IndexOfOccurs(toSearch: seq<int>, toFind: seq<int>, start: nat)
    ensures IndexOf(toSearch, toFind, start) >= 0 ==> OccursAt(toSearch, toFind, IndexOf(toSearch, toFind, start))
    decreases |toSearch| - start
  {
    if start + |toFind| <= |toSearch| && toSearch[start..start + |toFind|] != toFind {
      IndexOfOccurs(toSearch, toFind, start + 1);
    }
  }

  /** IndexOf finds the first occurrence: there is none between `start` and it
      (and none at all when it answers -1). */
  lemma {:induction false} IndexOfFirst(toSearch: seq<int>, toFind: seq<int>, start: nat)
    ensures var r := IndexOf(toSearch, toFind, start);
            forall i :: start <= i && (r == -1 || i < r) ==> !OccursAt(toSearch, toFind, i)
    decreases |toSearch| - start
  {
    if start + |toFind| <= |toSearch| && toSearch[start..start + |toFind|] != toFind {
      IndexOfFirst(toSearch, toFind, start + 1);
    }
  }

  /** intArrayIndexOf. */
  method IntArrayIndexOf(toSearch: seq<int>, toFind: seq<int>, startIndex: nat) returns (r: int)
    ensures r == IndexOf(toSearch, toFind, startIndex)
  {
    var endIndex := |toSearch| - |toFind| + 1;
    var i := startIndex;
    while i < endIndex
      invariant startIndex <= i
      invariant IndexOf(toSearch, toFind, startIndex) == IndexOf(toSearch, toFind, i)
      decreases endIndex - i
    {
      var j := 0;
      var found := true;
      while j < |toFind|
        invariant 0 <= j <= |toFind|
        invariant forall k :: 0 <= k < j ==> toSearch[i + k] == toFind[k]
      {
        if toSearch[i + j] != toFind[j] {
          found := false;
          break;
        }
        j := j + 1;
      }
      if found {
        assert toSearch[i..i + |toFind|] == toFind;
        return i;
      }
      assert toSearch[i..i + |toFind|] != toFind by {
        assert toSearch[i..i + |toFind|][j] != toFind[j];
      }
      i := i + 1;
    }
    return -1;
  }

  // =====================================================================
  // Prepared search terms

  /** strings.ToLower maps rune by rune (unicode.ToLower); the rune mapping
      itself is a Unicode table and is taken as given. */
  function ToLower(s: string, lowerRune: char -> char): (r: string)
    ensures |r| == |s|
  {
    seq(|s|, i requires 0 <= i < |s| => lowerRune(s[i]))
  }

  /** The prepared search state: distinct terms as code-point arrays, each
      with its minimum count, and the exclusion terms. */
  datatype SearchTerms = SearchTerms(use: seq<seq<int>>, counts: seq<int>, exclude: seq<seq<int>>)
  {
    ghost predicate Valid()
    {
      |counts| == |use|
      && (forall k :: 0 <= k < |use| ==> |use[k]| > 0 && counts[k] >= 1)
      && (forall k :: 0 <= k < |exclude| ==> |exclude[k]| > 0)
    }
  }

  function MapCodePoints(ss: seq<string>): (r: seq<seq<int>>)
    ensures |r| == |ss|
    ensures forall k :: 0 <= k < |ss| ==> r[k] == CodePoints(ss[k])
  {
    seq(|ss|, k requires 0 <= k < |ss| => CodePoints(ss[k]))
  }

  function MapToLower(ss: seq<string>, ignoreCase: bool, lowerRune: char -> char): (r: seq<string>)
    ensures |r| == |ss|
    ensures forall k :: 0 <= k < |ss| ==> |r[k]| == |ss[k]|
  {
    seq(|ss|, k requires 0 <= k < |ss| => if ignoreCase then ToLower(ss[k], lowerRune) else ss[k])
  }

  /** prepareSearchString (exact mode): under -la nothing is prepared and
      the terms stay empty; otherwise no search string is a fatal error, and
      the strings are case-folded when asked, de-duplicated with their
      counts, and the exclusion option is split on ';'. */
  method PrepareSearchString(listAll: bool, args: seq<string>, ignoreCase: bool, lowerRune: char -> char,
                             excludeOption: string) returns (r: Result<SearchTerms>)
    ensures listAll ==> r == Ok(SearchTerms([], [], []))
    ensures !listAll ==> (args == [] <==> r.Fail?)
    ensures r.Ok? ==> r.value.Valid()
    ensures !listAll && r.Ok? ==> r.value.use == MapCodePoints(DistinctTerms(MapToLower(args, ignoreCase, lowerRune)))
    ensures !listAll && r.Ok? ==> forall k :: 0 <= k < |r.value.use| ==>
              r.value.counts[k] == Occ(MapToLower(args, ignoreCase, lowerRune), DistinctTerms(MapToLower(args, ignoreCase, lowerRune))[k])
    ensures !listAll && r.Ok? && excludeOption == "" ==> r.value.exclude == []
    ensures !listAll && r.Ok? && excludeOption != "" ==>
              r.value.exclude == MapCodePoints(MapToLower(TrimmedNonEmpty(Split(excludeOption, ';')), ignoreCase, lowerRune))
  {
    if listAll {
      return Ok(SearchTerms([], [], []));
    }
    if args == [] {
      return Fail("USAGE: ff [option]... <search-string>...");
    }
    var ss := MapToLower(args, ignoreCase, lowerRune);
    var terms, counts := DeduplicateSearchStrings(ss);
    DistinctTermsSpec(ss);
    assert forall k :: 0 <= k < |terms| ==> terms[k] in ss && terms[k] != "";
    var exclude: seq<seq<int>> := [];
    if excludeOption != "" {
      var pieces := SplitAndTrim(excludeOption, ';');
      exclude := MapCodePoints(MapToLower(pieces, ignoreCase, lowerRune));
    }
    r := Ok(SearchTerms(MapCodePoints(terms), counts, exclude));
  }

  // =====================================================================
  // Occurrences and whole-word boundaries

  datatype Span = Span(beginIndex: int, endIndex: int)

  /** Whole-word rejection at the start: the match does not start the line and
      both the first matched character and the one before it are word characters. */
  predicate RejectedAtBegin(a: seq<int>, b: int, nonWord: int -> bool)
    requires 0 <= b < |a|
  {
    b > 0 && !nonWord(a[b]) && !nonWord(a[b - 1])
  }

  /** Whole-word rejection at the end: the match does not end the line and both
      the last matched character and the one after it are word characters. */
  predicate RejectedAtEnd(a: seq<int>, e: int, nonWord: int -> bool)
    requires 0 < e <= |a|
  {
    e < |a| && !nonWord(a[e]) && !nonWord(a[e - 1])
  }

  /** An occurrence of `t` at `b` is accepted unless whole-word mode rejects it. */
  predicate Accepted(a: seq<int>, t: seq<int>, b: int, wholeWord: bool, nonWord: int -> bool)
    requires |t| > 0 && 0 <= b && b + |t| <= |a|
  {
    !wholeWord || (!RejectedAtBegin(a, b, nonWord) && !RejectedAtEnd(a, b + |t|, nonWord))
  }

  /** The accepted spans of `t` from `start` on: the search resumes after the
      end of every occurrence, accepted or rejected. */
  function TermSpans(a: seq<int>, t: seq<int>, start: nat, wholeWord: bool, nonWord: int -> bool): (r: seq<Span>)
    requires |t| > 0 && start <= |a|
    decreases |a| - start
  {
    var b := IndexOf(a, t, start);
    if b < 0 then []
    else
      var rest := TermSpans(a, t, b + |t|, wholeWord, nonWord);
      if Accepted(a, t, b, wholeWord, nonWord) then [Span(b, b + |t|)] + rest else rest
  }

  /** Every recorded span is an accepted occurrence of the term at or after `start`. */
  lemma {:induction false} TermSpansSound(a: seq<int>, t: seq<int>, start: nat, wholeWord: bool, nonWord: int -> bool)
    requires |t| > 0 && start <= |a|
    ensures forall s :: s in TermSpans(a, t, start, wholeWord, nonWord) ==>
              start <= s.beginIndex && s.endIndex == s.beginIndex + |t|
              && OccursAt(a, t, s.beginIndex) && Accepted(a, t, s.beginIndex, wholeWord, nonWord)
    decreases |a| - start
  {
    var b := IndexOf(a, t, start);
    if b >= 0 {
      IndexOfOccurs(a, t, start);
      TermSpansSound(a, t, b + |t|, wholeWord, nonWord);
    }
  }

  /** Spans in increasing order that do not overlap: every span ends before
      any later one begins. */
  predicate Ordered(r: seq<Span>)
  {
    forall i, j :: 0 <= i < j < |r| ==> r[i].endIndex <= r[j].beginIndex
  }

  lemma OrderedCons(x: Span, rest: seq<Span>)
    requires Ordered(rest)
    requires forall k :: 0 <= k < |rest| ==> x.endIndex <= rest[k].beginIndex
    ensures Ordered([x] + rest)
  {
    var r := [x] + rest;
    forall i, j | 0 <= i < j < |r| ensures r[i].endIndex <= r[j].beginIndex {
      assert r[j] == rest[j - 1];
      if i > 0 {
        assert r[i] == rest[i - 1];
      }
    }
  }

  /** Every span of the chain starts at or after `start`. */
  lemma {:induction false} TermSpansAfter(a: seq<int>, t: seq<int>, start: nat, wholeWord: bool, nonWord: int -> bool)
    requires |t| > 0 && start <= |a|
    ensures forall k :: 0 <= k < |TermSpans(a, t, start, wholeWord, nonWord)| ==>
              TermSpans(a, t, start, wholeWord, nonWord)[k].beginIndex >= start
    decreases |a| - start
  {
    var b := IndexOf(a, t, start);
    if b >= 0 {
      TermSpansAfter(a, t, b + |t|, wholeWord, nonWord);
      TermSpansStep(a, t, start, b, wholeWord, nonWord);
    }
  }

  /** The spans of one term are in increasing order and do not overlap. */
  lemma {:induction false} TermSpansOrdered(a: seq<int>, t: seq<int>, start: nat, wholeWord: bool, nonWord: int -> bool)
    requires |t| > 0 && start <= |a|
    ensures Ordered(TermSpans(a, t, start, wholeWord, nonWord))
    decreases |a| - start
  {
    var b := IndexOf(a, t, start);
    if b >= 0 {
      var rest := TermSpans(a, t, b + |t|, wholeWord, nonWord);
      assert Ordered(rest) by {
        TermSpansOrdered(a, t, b + |t|, wholeWord, nonWord);
      }
      if Accepted(a, t, b, wholeWord, nonWord) {
        TermSpansAfter(a, t, b + |t|, wholeWord, nonWord);
        OrderedCons(Span(b, b + |t|), rest);
      }
      TermSpansStep(a, t, start, b, wholeWord, nonWord);
    }
  }

  /** One step of the chain: the occurrence at `b` is recorded when accepted,
      and the search resumes at its end. */
  lemma TermSpansStep(a: seq<int>, t: seq<int>, start: nat, b: int, wholeWord: bool, nonWord: int -> bool)
    requires |t| > 0 && start <= |a|
    requires b == IndexOf(a, t, start) && b >= 0
    ensures b + |t| <= |a|
    ensures TermSpans(a, t, start, wholeWord, nonWord)
         == (if Accepted(a, t, b, wholeWord, nonWord) then [Span(b, b + |t|)] else []) + TermSpans(a, t, b + |t|, wholeWord, nonWord)
  {
  }

  /** Without whole-word mode every occurrence in the chain is recorded, so a
      line without the term has no spans and a line with it has at least one. */
  lemma {:induction false} TermSpansNonEmpty(a: seq<int>, t: seq<int>, start: nat, nonWord: int -> bool)
    requires |t| > 0 && start <= |a|
    ensures |TermSpans(a, t, start, false, nonWord)| > 0 <==> IndexOf(a, t, start) >= 0
  {
  }

  /** The term has an accepted occurrence in the chain that starts at `start`. */
  predicate HasAccepted(a: seq<int>, t: seq<int>, start: nat, wholeWord: bool, nonWord: int -> bool)
    requires |t| > 0 && start <= |a|
    decreases |a| - start
  {
    var b := IndexOf(a, t, start);
    b >= 0 && (Accepted(a, t, b, wholeWord, nonWord) || HasAccepted(a, t, b + |t|, wholeWord, nonWord))
  }

  /** The chain has an accepted occurrence exactly when it records a span. */
  lemma {:induction false} HasAcceptedSpans(a: seq<int>, t: seq<int>, start: nat, wholeWord: bool, nonWord: int -> bool)
    requires |t| > 0 && start <= |a|
    ensures HasAccepted(a, t, start, wholeWord, nonWord) <==> |TermSpans(a, t, start, wholeWord, nonWord)| > 0
    decreases |a| - start
  {
    var b := IndexOf(a, t, start);
    if b >= 0 {
      HasAcceptedSpans(a, t, b + |t|, wholeWord, nonWord);
    }
  }

  /** Some exclusion term occurs anywhere in the line (whole-word mode is not
      consulted: the match-any scan returns on the first raw occurrence). */
  predicate AnyOccurs(a: seq<int>, terms: seq<seq<int>>)
  {
    exists k :: 0 <= k < |terms| && IndexOf(a, terms[k], 0) >= 0
  }

  /** Every term from index `k` on has at least its minimum number of accepted spans. */
  predicate EnoughFrom(a: seq<int>, p: SearchTerms, k: nat, wholeWord: bool, nonWord: int -> bool)
    requires p.Valid() && k <= |p.use|
  {
    forall j :: k <= j < |p.use| ==> |TermSpans(a, p.use[j], 0, wholeWord, nonWord)| >= p.counts[j]
  }

  datatype MatchResult = MatchResult(matched: bool, spans: seq<Span>)

  /** The inclusion phase of getMatchIndexesByExactMatch from term `k` on: the
      spans of each term are recorded, and the first term short of its count
      ends the scan with the spans gathered so far. */
  function MatchTerms(a: seq<int>, p: SearchTerms, k: nat, wholeWord: bool, nonWord: int -> bool): (r: MatchResult)
    requires p.Valid() && k <= |p.use|
    decreases |p.use| - k
  {
    if k == |p.use| then MatchResult(true, [])
    else
      var sp := TermSpans(a, p.use[k], 0, wholeWord, nonWord);
      if |sp| < p.counts[k] then MatchResult(false, sp)
      else
        var rest := MatchTerms(a, p, k + 1, wholeWord, nonWord);
        MatchResult(rest.matched, sp + rest.spans)
  }

  /** The scan succeeds exactly when every term from `k` on reaches its count. */
  lemma {:induction false} MatchTermsMatched(a: seq<int>, p: SearchTerms, k: nat, wholeWord: bool, nonWord: int -> bool)
    requires p.Valid() && k <= |p.use|
    ensures MatchTerms(a, p, k, wholeWord, nonWord).matched <==> EnoughFrom(a, p, k, wholeWord, nonWord)
    decreases |p.use| - k
  {
    if k < |p.use| {
      MatchTermsMatched(a, p, k + 1, wholeWord, nonWord);
    }
  }

  /** The verdict and spans of getMatchIndexesByExactMatch. */
  function ExactMatch(a: seq<int>, p: SearchTerms, wholeWord: bool, nonWord: int -> bool): (r: MatchResult)
    requires p.Valid()
    ensures AnyOccurs(a, p.exclude) ==> r == MatchResult(false, [])
  {
    if AnyOccurs(a, p.exclude) then MatchResult(false, [])
    else MatchTerms(a, p, 0, wholeWord, nonWord)
  }

  /** A line matches exactly when no exclusion term occurs in it and every
      search term has at least as many accepted occurrences as it was given. */
  lemma ExactMatchSpec(a: seq<int>, p: SearchTerms, wholeWord: bool, nonWord: int -> bool)
    requires p.Valid()
    ensures ExactMatch(a, p, wholeWord, nonWord).matched
        <==> !AnyOccurs(a, p.exclude)
             && forall j :: 0 <= j < |p.use| ==> |TermSpans(a, p.use[j], 0, wholeWord, nonWord)| >= p.counts[j]
  {
    MatchTermsMatched(a, p, 0, wholeWord, nonWord);
  }

  /** Every span of the inclusion phase is an accepted occurrence of one of the terms. */
  lemma {:induction false} MatchTermsSound(a: seq<int>, p: SearchTerms, k: nat, wholeWord: bool, nonWord: int -> bool)
    requires p.Valid() && k <= |p.use|
    ensures forall s :: s in MatchTerms(a, p, k, wholeWord, nonWord).spans ==>
              (exists j :: k <= j < |p.use| && OccursAt(a, p.use[j], s.beginIndex)
                 && s.endIndex == s.beginIndex + |p.use[j]|
                 && Accepted(a, p.use[j], s.beginIndex, wholeWord, nonWord))
    decreases |p.use| - k
  {
    if k < |p.use| {
      TermSpansSound(a, p.use[k], 0, wholeWord, nonWord);
      MatchTermsSound(a, p, k + 1, wholeWord, nonWord);
    }
  }

  /** The spans of a full-info query are accepted occurrences of the search terms. */
  lemma ExactMatchSound(a: seq<int>, p: SearchTerms, wholeWord: bool, nonWord: int -> bool)
    requires p.Valid()
    ensures forall s :: s in ExactMatch(a, p, wholeWord, nonWord).spans ==>
              (exists j :: 0 <= j < |p.use| && OccursAt(a, p.use[j], s.beginIndex)
                 && s.endIndex == s.beginIndex + |p.use[j]|
                 && Accepted(a, p.use[j], s.beginIndex, wholeWord, nonWord))
  {
    MatchTermsSound(a, p, 0, wholeWord, nonWord);
  }

  /** The verdict of the cheap form isLineMatchingIntArray: no exclusion term
      occurs and every term has at least one accepted occurrence. */
  predicate CheapMatch(a: seq<int>, p: SearchTerms, wholeWord: bool, nonWord: int -> bool)
    requires p.Valid()
  {
    !AnyOccurs(a, p.exclude)
    && forall j :: 0 <= j < |p.use| ==> |TermSpans(a, p.use[j], 0, wholeWord, nonWord)| > 0
  }

  /** The two query forms agree whenever no term was given twice. */
  lemma CheapAgreesWithFullInfo(a: seq<int>, p: SearchTerms, wholeWord: bool, nonWord: int -> bool)
    requires p.Valid()
    requires forall j :: 0 <= j < |p.counts| ==> p.counts[j] == 1
    ensures CheapMatch(a, p, wholeWord, nonWord) == ExactMatch(a, p, wholeWord, nonWord).matched
  {
    ExactMatchSpec(a, p, wholeWord, nonWord);
  }

  /** In general the full-info verdict implies the cheap one. */
  lemma FullInfoImpliesCheap(a: seq<int>, p: SearchTerms, wholeWord: bool, nonWord: int -> bool)
    requires p.Valid()
    requires ExactMatch(a, p, wholeWord, nonWord).matched
    ensures CheapMatch(a, p, wholeWord, nonWord)
  {
    ExactMatchSpec(a, p, wholeWord, nonWord);
  }

  /** The search strings "ab" "ab" against the line "ab": the full-info form
      demands two occurrences and fails, the cheap form ignores the count. */
  lemma DuplicateTermsDisagree(nonWord: int -> bool)
    ensures var p := SearchTerms([[97, 98]], [2], []);
            p.Valid() && CheapMatch([97, 98], p, false, nonWord)
            && !ExactMatch([97, 98], p, false, nonWord).matched
  {
    var a, t := [97, 98], [97, 98];
    assert IndexOf(a, t, 0) == 0 by { assert a[0..2] == t; }
    assert IndexOf(a, t, 2) == -1;
    assert TermSpans(a, t, 2, false, nonWord) == [];
    assert TermSpans(a, t, 0, false, nonWord) == [Span(0, 2)];
    var p := SearchTerms([t], [2], []);
    assert !AnyOccurs(a, p.exclude);
  }

  /** "ab" "ab" against "abab" matches with the two spans [0,2) and [2,4). */
  lemma DuplicateTermsTwice(nonWord: int -> bool)
    ensures ExactMatch([97, 98, 97, 98], SearchTerms([[97, 98]], [2], []), false, nonWord)
         == MatchResult(true, [Span(0, 2), Span(2, 4)])
  {
    var a, t := [97, 98, 97, 98], [97, 98];
    assert IndexOf(a, t, 0) == 0 by { assert a[0..2] == t; }
    assert IndexOf(a, t, 2) == 2 by { assert a[2..4] == t; }
    assert IndexOf(a, t, 4) == -1;
    assert TermSpans(a, t, 4, false, nonWord) == [];
    assert TermSpans(a, t, 2, false, nonWord) == [Span(2, 4)];
    assert TermSpans(a, t, 0, false, nonWord) == [Span(0, 2), Span(2, 4)];
    var p := SearchTerms([t], [2], []);
    assert !AnyOccurs(a, p.exclude);
    assert MatchTerms(a, p, 1, false, nonWord) == MatchResult(true, []);
  }

  // =====================================================================
  // The boolean query (isMatchingIntArray, isLineMatchingIntArray)

  /** One step of the scan, on values: the occurrence at `b` is accepted
      exactly when the source's whole-word test lets it through. */
  lemma ScanStep(a: seq<int>, t: seq<int>, start: nat, b: int, wholeWord: bool, nonWord: int -> bool)
    requires |t| > 0 && start <= |a|
    requires b == IndexOf(a, t, start) && b >= 0
    ensures b + |t| <= |a| && b < |a|
    ensures HasAccepted(a, t, start, wholeWord, nonWord)
         == (Accepted(a, t, b, wholeWord, nonWord) || HasAccepted(a, t, b + |t|, wholeWord, nonWord))
    ensures Accepted(a, t, b, wholeWord, nonWord)
         == !(wholeWord && ((b > 0 && !nonWord(a[b]) && !nonWord(a[b - 1]))
                            || (b + |t| < |a| && !nonWord(a[b + |t|]) && !nonWord(a[b + |t| - 1]))))
  {
  }

  /** The scan of isMatchingIntArray for one term: in match-any mode the first
      occurrence settles it (whole-word mode is not consulted); otherwise the
      scan skips rejected occurrences until an accepted one or the end. */
  method ScanTerm(a: seq<int>, t: seq<int>, matchAny: bool, wholeWord: bool, nonWord: int -> bool)
    returns (found: bool)
    requires |t| > 0
    ensures matchAny ==> (found <==> IndexOf(a, t, 0) >= 0)
    ensures !matchAny ==> (found <==> HasAccepted(a, t, 0, wholeWord, nonWord))
  {
    hide IndexOf, Accepted;
    var stringStartIndex := 0;
    while true
      invariant stringStartIndex <= |a|
      invariant matchAny ==> stringStartIndex == 0
      invariant HasAccepted(a, t, 0, wholeWord, nonWord) == HasAccepted(a, t, stringStartIndex, wholeWord, nonWord)
      decreases |a| - stringStartIndex
    {
      var beginIndex := IntArrayIndexOf(a, t, stringStartIndex);
      if beginIndex < 0 {
        return false;
      }
      if matchAny {
        return true;
      }
      ScanStep(a, t, stringStartIndex, beginIndex, wholeWord, nonWord);
      var endIndex := beginIndex + |t|;
      if wholeWord && ((beginIndex > 0 && !nonWord(a[beginIndex]) && !nonWord(a[beginIndex - 1]))
                       || (endIndex < |a| && !nonWord(a[endIndex]) && !nonWord(a[endIndex - 1]))) {
        // rejected as a whole word: resume after this occurrence
        stringStartIndex := endIndex;
        continue;
      }
      return true;
    }
  }

  /** isMatchingIntArray: in match-any mode, true as soon as any term occurs
      (even where whole-word mode would reject it); otherwise true iff every
      term has an accepted occurrence. */
  method IsMatchingIntArray(a: seq<int>, toFind: seq<seq<int>>, matchAny: bool,
                            wholeWord: bool, nonWord: int -> bool) returns (r: bool)
    requires forall k :: 0 <= k < |toFind| ==> |toFind[k]| > 0
    ensures matchAny ==> (r <==> AnyOccurs(a, toFind))
    ensures !matchAny ==> (r <==> forall k :: 0 <= k < |toFind| ==> |TermSpans(a, toFind[k], 0, wholeWord, nonWord)| > 0)
  {
    var k := 0;
    while k < |toFind|
      invariant 0 <= k <= |toFind|
      invariant matchAny ==> forall j :: 0 <= j < k ==> IndexOf(a, toFind[j], 0) < 0
      invariant !matchAny ==> forall j :: 0 <= j < k ==> |TermSpans(a, toFind[j], 0, wholeWord, nonWord)| > 0
    {
      var found := ScanTerm(a, toFind[k], matchAny, wholeWord, nonWord);
      HasAcceptedSpans(a, toFind[k], 0, wholeWord, nonWord);
      if matchAny && found {
        return true;
      }
      if !matchAny && !found {
        return false;
      }
      k := k + 1;
    }
    return !matchAny;
  }

  /** isLineMatchingIntArray: the cheap verdict. */
  method IsLineMatchingIntArray(a: seq<int>, p: SearchTerms, wholeWord: bool, nonWord: int -> bool) returns (r: bool)
    requires p.Valid()
    ensures r == CheapMatch(a, p, wholeWord, nonWord)
  {
    if |p.exclude| > 0 {
      var excluded := IsMatchingIntArray(a, p.exclude, true, wholeWord, nonWord);
      if excluded {
        return false;
      }
    }
    r := IsMatchingIntArray(a, p.use, false, wholeWord, nonWord);
  }

  /** Per-line matching options. */
  datatype MatchOptions = MatchOptions(ignoreCase: bool, wholeWord: bool, invertMatch: bool)

  /** isLineMatching (exact mode): an empty line never matches; otherwise the
      raw cheap verdict of the (case-folded) line, not inverted. */
  method IsLineMatching(line: string, p: SearchTerms, o: MatchOptions,
                        lowerRune: char -> char, nonWord: int -> bool) returns (r: bool)
    requires p.Valid()
    ensures r == LineMatches(line, p, o, lowerRune, nonWord)
  {
    if line == "" {
      return false;
    }
    var l := if o.ignoreCase then ToLower(line, lowerRune) else line;
    var a := StringToIntArray(l);
    r := IsLineMatchingIntArray(a, p, o.wholeWord, nonWord);
  }

  /** The specification of isLineMatching. */
  predicate LineMatches(line: string, p: SearchTerms, o: MatchOptions,
                        lowerRune: char -> char, nonWord: int -> bool)
    requires p.Valid()
  {
    line != "" && CheapMatch(LineCodePoints(line, o, lowerRune), p, o.wholeWord, nonWord)
  }

  /** The code points the engine scans: the line, case-folded when asked. */
  function LineCodePoints(line: string, o: MatchOptions, lowerRune: char -> char): (a: seq<int>)
    ensures |a| == |line|
  {
    CodePoints(if o.ignoreCase then ToLower(line, lowerRune) else line)
  }

  /** The smallest begin index among the first `n` spans, starting from `init`. */
  function MinBegin(spans: seq<Span>, n: nat, init: int): (m: int)
    requires n <= |spans|
    ensures m <= init
  {
    if n == 0 then init
    else
      var m0 := MinBegin(spans, n - 1, init);
      var b := spans[n - 1].beginIndex;
      if m0 > b then b else m0
  }

  /** MinBegin only looks at the first `n` spans. */
  lemma {:induction false} MinBeginPrefix(spans: seq<Span>, more: seq<Span>, n: nat, init: int)
    requires n <= |spans|
    ensures MinBegin(spans + more, n, init) == MinBegin(spans, n, init)
  {
    if n > 0 {
      MinBeginPrefix(spans, more, n - 1, init);
    }
  }

  /** One step of the span-collecting loop, on values. */
  lemma CollectStep(a: seq<int>, t: seq<int>, start: nat, b: int, wholeWord: bool, nonWord: int -> bool,
                    rejected: bool, done: seq<Span>, total: seq<Span>)
    requires |t| > 0 && start <= |a|
    requires b == IndexOf(a, t, start) && b >= 0 && b + |t| <= |a|
    requires rejected == (wholeWord && (RejectedAtBegin(a, b, nonWord) || RejectedAtEnd(a, b + |t|, nonWord)))
    requires done + TermSpans(a, t, start, wholeWord, nonWord) == total
    ensures rejected ==> done + TermSpans(a, t, b + |t|, wholeWord, nonWord) == total
    ensures !rejected ==> (done + [Span(b, b + |t|)]) + TermSpans(a, t, b + |t|, wholeWord, nonWord) == total
    ensures b + |t| == |a| ==> TermSpans(a, t, b + |t|, wholeWord, nonWord) == []
  {
    TermSpansStep(a, t, start, b, wholeWord, nonWord);
    assert Accepted(a, t, b, wholeWord, nonWord) == !rejected;
    var rest := TermSpans(a, t, b + |t|, wholeWord, nonWord);
    var x := Span(b, b + |t|);
    if !rejected {
      assert (done + [x]) + rest == done + ([x] + rest);
    } else {
      assert [] + rest == rest;
    }
  }

  /** The spans of the first `k` terms, in term order. */
  function Gathered(a: seq<int>, p: SearchTerms, k: nat, wholeWord: bool, nonWord: int -> bool): seq<Span>
    requires p.Valid() && k <= |p.use|
  {
    if k == 0 then [] else Gathered(a, p, k - 1, wholeWord, nonWord) + TermSpans(a, p.use[k - 1], 0, wholeWord, nonWord)
  }

  /** Every one of the first `k` terms reaches its count. */
  predicate EnoughBelow(a: seq<int>, p: SearchTerms, k: nat, wholeWord: bool, nonWord: int -> bool)
    requires p.Valid() && k <= |p.use|
  {
    k == 0 || (EnoughBelow(a, p, k - 1, wholeWord, nonWord)
               && |TermSpans(a, p.use[k - 1], 0, wholeWord, nonWord)| >= p.counts[k - 1])
  }

  /** While every term so far reached its count, the scan from the start is
      the gathered spans followed by the scan from term `k`. */
  lemma {:induction false} GatheredPrefix(a: seq<int>, p: SearchTerms, k: nat, wholeWord: bool, nonWord: int -> bool)
    requires p.Valid() && k <= |p.use| && EnoughBelow(a, p, k, wholeWord, nonWord)
    ensures MatchTerms(a, p, 0, wholeWord, nonWord).matched == MatchTerms(a, p, k, wholeWord, nonWord).matched
    ensures MatchTerms(a, p, 0, wholeWord, nonWord).spans
         == Gathered(a, p, k, wholeWord, nonWord) + MatchTerms(a, p, k, wholeWord, nonWord).spans
  {
    if k == 0 {
      assert [] + MatchTerms(a, p, 0, wholeWord, nonWord).spans == MatchTerms(a, p, 0, wholeWord, nonWord).spans;
    } else {
      GatheredPrefix(a, p, k - 1, wholeWord, nonWord);
      var g := Gathered(a, p, k - 1, wholeWord, nonWord);
      var sp := TermSpans(a, p.use[k - 1], 0, wholeWord, nonWord);
      var rest := MatchTerms(a, p, k, wholeWord, nonWord).spans;
      assert g + (sp + rest) == (g + sp) + rest;
    }
  }

  /** The scan stops, unmatched, at the first term short of its count. */
  lemma GatheredStop(a: seq<int>, p: SearchTerms, k: nat, wholeWord: bool, nonWord: int -> bool)
    requires p.Valid() && k < |p.use| && EnoughBelow(a, p, k, wholeWord, nonWord)
    requires |TermSpans(a, p.use[k], 0, wholeWord, nonWord)| < p.counts[k]
    ensures MatchTerms(a, p, 0, wholeWord, nonWord) == MatchResult(false, Gathered(a, p, k + 1, wholeWord, nonWord))
  {
    GatheredPrefix(a, p, k, wholeWord, nonWord);
  }

  /** When every term reaches its count, the scan matches with all the spans. */
  lemma GatheredAll(a: seq<int>, p: SearchTerms, wholeWord: bool, nonWord: int -> bool)
    requires p.Valid() && EnoughBelow(a, p, |p.use|, wholeWord, nonWord)
    ensures MatchTerms(a, p, 0, wholeWord, nonWord) == MatchResult(true, Gathered(a, p, |p.use|, wholeWord, nonWord))
  {
    GatheredPrefix(a, p, |p.use|, wholeWord, nonWord);
    assert Gathered(a, p, |p.use|, wholeWord, nonWord) + [] == Gathered(a, p, |p.use|, wholeWord, nonWord);
  }

  /** MinBegin is the least of `init` and the begin indexes. */
  lemma {:induction false} MinBeginSpec(spans: seq<Span>, n: nat, init: int)
    requires n <= |spans|
    ensures forall k :: 0 <= k < n ==> MinBegin(spans, n, init) <= spans[k].beginIndex
    ensures MinBegin(spans, n, init) == init || exists k :: 0 <= k < n && MinBegin(spans, n, init) == spans[k].beginIndex
  {
    if n > 0 {
      MinBeginSpec(spans, n - 1, init);
    }
  }
}
