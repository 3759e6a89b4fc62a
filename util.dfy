/** Small helpers of ff/util.go: choosing between two strings, converting
    between strings and code-point arrays, and grouping digits with commas. */
module Util {

  /** Go's selectString. */
  function SelectString(which: bool, trueString: string, falseString: string): (r: string)
    ensures which ==> r == trueString
    ensures !which ==> r == falseString
  {
    if which then trueString else falseString
  }

  // ---------------------------------------------------------------------
  // Strings and code points

  /** Number of bytes Go's UTF-8 encoding uses for one rune. */
  function Utf8Width(c: char): (w: nat)
    ensures 1 <= w <= 4
    ensures w == 1 <==> c as int < 0x80
  {
    if c as int < 0x80 then 1
    else if c as int < 0x800 then 2
    else if c as int < 0x10000 then 3
    else 4
  }

  /** Go's len(s) on a string: its length in UTF-8 bytes. */
  function ByteLen(s: string): (n: nat)
    ensures n >= |s|
  {
    if s == [] then 0 else Utf8Width(s[0]) + ByteLen(s[1..])
  }

  /** A string is ASCII when every rune occupies one byte. */
  predicate IsAscii(s: string)
  {
    forall i :: 0 <= i < |s| ==> s[i] as int < 0x80
  }

  lemma {:induction false} AsciiByteLen(s: string)
    requires IsAscii(s)
    ensures ByteLen(s) == |s|
  {
    if s != [] {
      AsciiByteLen(s[1..]);
    }
  }

  /** The code points of a string, as `range str` yields them. */
  function CodePoints(s: string): (a: seq<int>)
    ensures |a| == |s|
    ensures forall i :: 0 <= i < |s| ==> a[i] == s[i] as int
  {
    seq(|s|, i requires 0 <= i < |s| => s[i] as int)
  }

  lemma CodePointsAppend(s: string, t: string)
    ensures CodePoints(s + t) == CodePoints(s) + CodePoints(t)
  {
  }

  /** appendStringToIntArray: appends the code points of `str` to `prefix`. */
  method AppendStringToIntArray(prefix: seq<int>, str: string) returns (r: seq<int>)
    ensures |r| == |prefix| + |str|
    ensures r[..|prefix|] == prefix
    ensures forall i :: 0 <= i < |str| ==> r[|prefix| + i] == str[i] as int
  {
    r := prefix;
    var k := 0;
    while k < |str|
      invariant 0 <= k <= |str|
      invariant |r| == |prefix| + k
      invariant r[..|prefix|] == prefix
      invariant forall i :: 0 <= i < k ==> r[|prefix| + i] == str[i] as int
    {
      r := r + [str[k] as int];
      k := k + 1;
    }
  }

  /** stringToIntArray: the code points of `str` in a fresh array. */
  method StringToIntArray(str: string) returns (r: seq<int>)
    ensures r == CodePoints(str)
  {
    r := AppendStringToIntArray([], str);
  }

  /** A value is a Unicode scalar value when Go's WriteRune encodes it as itself. */
  predicate IsScalar(x: int)
  {
    (0 <= x < 0xD800) || (0xE000 <= x < 0x11_0000)
  }

  /** The rune WriteRune produces for an int: itself when valid, U+FFFD otherwise. */
  function RuneOf(x: int): (c: char)
    ensures IsScalar(x) ==> c as int == x
    ensures !IsScalar(x) ==> c == 0xFFFD as char
  {
    if IsScalar(x) then x as char else 0xFFFD as char
  }

  /** intArrayToString: every element written as one rune. */
  method IntArrayToString(values: seq<int>) returns (s: string)
    ensures |s| == |values|
    ensures forall i :: 0 <= i < |values| ==> s[i] == RuneOf(values[i])
  {
    s := "";
    var k := 0;
    while k < |values|
      invariant 0 <= k <= |values|
      invariant |s| == k
      invariant forall i :: 0 <= i < k ==> s[i] == RuneOf(values[i])
    {
      s := s + [RuneOf(values[k])];
      k := k + 1;
    }
  }

  /** The specification of intArrayToString, for use by functions and lemmas. */
  function IntsToString(values: seq<int>): (s: string)
    ensures |s| == |values|
    ensures forall i :: 0 <= i < |values| ==> s[i] == RuneOf(values[i])
  {
    seq(|values|, i requires 0 <= i < |values| => RuneOf(values[i]))
  }

  /** Converting a string to code points and back gives the string again. */
  lemma StringRoundTrip(s: string)
    ensures IntsToString(CodePoints(s)) == s
  {
    var r := IntsToString(CodePoints(s));
    forall i | 0 <= i < |s|
      ensures r[i] == s[i]
    {
      assert IsScalar(s[i] as int);
    }
  }

  // ---------------------------------------------------------------------
  // Decimal numbers

  /** The decimal digits of a natural number, as strconv.Itoa prints them. */
  function Digits(n: nat): (s: string)
    ensures |s| >= 1
    ensures forall i :: 0 <= i < |s| ==> '0' <= s[i] <= '9'
    decreases n
  {
    if n < 10 then [(n + '0' as int) as char]
    else Digits(n / 10) + [(n % 10 + '0' as int) as char]
  }

  /** strconv.Itoa / FormatInt(n, 10): a minus sign for negative numbers. */
  function Decimal(n: int): (s: string)
    ensures n >= 0 ==> s == Digits(n)
    ensures n < 0 ==> s == "-" + Digits(-n)
  {
    if n < 0 then "-" + Digits(-n) else Digits(n)
  }

  /** The reference grouping: a comma before every group of three characters
      counted from the right. */
  function GroupThousands(s: string): (r: string)
    decreases |s|
  {
    if |s| <= 3 then s else GroupThousands(s[..|s| - 3]) + "," + s[|s| - 3..]
  }

  /** Deletes every comma. */
  function RemoveCommas(s: string): (r: string)
    ensures |r| <= |s|
  {
    if s == [] then []
    else (if s[0] == ',' then [] else [s[0]]) + RemoveCommas(s[1..])
  }

  /** No comma survives. */
  lemma {:induction false} RemoveCommasNoComma(s: string)
    ensures ',' !in RemoveCommas(s)
  {
    if s != [] {
      RemoveCommasNoComma(s[1..]);
    }
  }

  lemma {:induction false} RemoveCommasAppend(s: string, t: string)
    ensures RemoveCommas(s + t) == RemoveCommas(s) + RemoveCommas(t)
  {
    if s != [] {
      assert (s + t)[1..] == s[1..] + t;
      RemoveCommasAppend(s[1..], t);
    } else {
      assert s + t == t;
    }
  }

  /** Grouping only inserts commas: deleting them gives the digits back. */
  lemma {:induction false} GroupThousandsRemoveCommas(s: string)
    requires ',' !in s
    ensures RemoveCommas(GroupThousands(s)) == s
  {
    if |s| <= 3 {
      NoCommaFixed(s);
    } else {
      var k := |s| - 3;
      var t, tail := s[..k], s[k..];
      var g := GroupThousands(t);
      assert GroupThousands(s) == g + "," + tail;
      assert RemoveCommas(g) == t by {
        GroupThousandsRemoveCommas(t);
      }
      assert RemoveCommas(tail) == tail by {
        NoCommaFixed(tail);
      }
      RemoveCommasJoin(g, tail);
      assert t + tail == s;
    }
  }

  /** Deleting commas across one inserted comma. */
  lemma RemoveCommasJoin(g: string, tail: string)
    ensures RemoveCommas(g + "," + tail) == RemoveCommas(g) + RemoveCommas(tail)
  {
    var gc := g + ",";
    RemoveCommasAppend(gc, tail);
    RemoveCommasAppend(g, ",");
    RemoveCommasOfComma();
    assert RemoveCommas(gc) == RemoveCommas(g);
  }

  lemma RemoveCommasOfComma()
    ensures RemoveCommas(",") == ""
  {
    assert ","[1..] == "";
  }

  lemma {:induction false} NoCommaFixed(s: string)
    requires ',' !in s
    ensures RemoveCommas(s) == s
  {
    if s != [] {
      NoCommaFixed(s[1..]);
    }
  }

  /** What the loop of addCommasToInt writes for the first `i` runes of `s`:
      a comma goes before rune `i` when the buffer is not empty and the number
      of runes still to write (counting rune `i`) is a multiple of three. */
  function CommaPrefix(s: string, i: nat): (r: string)
    requires i <= |s|
  {
    if i == 0 then []
    else CommaPrefix(s, i - 1)
         + (if i - 1 > 0 && (|s| - (i - 1)) % 3 == 0 then "," else "")
         + [s[i - 1]]
  }

  /** addCommasToInt. */
  method AddCommasToInt(n: int) returns (r: string)
    ensures r == (if |Decimal(n)| <= 3 then Decimal(n) else CommaPrefix(Decimal(n), |Decimal(n)|))
    ensures n >= 0 ==> r == GroupThousands(Decimal(n))
  {
    var s := Decimal(n);
    if |s| <= 3 {
      if n >= 0 {
        assert GroupThousands(s) == s;
      }
      return s;
    }
    r := "";
    var m := |s| % 3;
    var k := 0;
    while k < |s|
      invariant 0 <= k <= |s|
      invariant 0 <= m < 3
      invariant m == (|s| - k) % 3
      invariant r == CommaPrefix(s, k)
    {
      if m == 0 {
        m := 2;
        if |r| > 0 {
          r := r + ",";
        }
      } else {
        m := m - 1;
      }
      r := r + [s[k]];
      k := k + 1;
    }
    if n >= 0 {
      CommaPrefixGroups(s);
    }
  }

  lemma {:induction false} CommaPrefixNonEmpty(s: string, i: nat)
    requires 0 < i <= |s|
    ensures |CommaPrefix(s, i)| > 0
  {
  }

  /** Prefixes of two strings whose lengths differ by a multiple of three
      receive their commas at the same places. */
  lemma {:induction false} CommaPrefixShift(s: string, t: string, i: nat)
    requires i <= |t| <= |s|
    requires t == s[..|t|]
    requires (|s| - |t|) % 3 == 0
    ensures CommaPrefix(s, i) == CommaPrefix(t, i)
  {
    if i > 0 {
      CommaPrefixShift(s, t, i - 1);
      ModThreeShift(|t| - (i - 1), |s| - |t|);
      assert s[i - 1] == t[i - 1];
    }
  }

  lemma ModThreeShift(x: int, d: int)
    requires d % 3 == 0
    ensures (x + d) % 3 == x % 3
  {
  }

  /** The left-to-right loop agrees with the reference grouping for digit strings. */
  lemma {:induction false} CommaPrefixGroups(s: string)
    ensures CommaPrefix(s, |s|) == GroupThousands(s)
    decreases |s|
  {
    if |s| <= 3 {
      CommaPrefixNoComma(s, |s|);
    } else {
      var k := |s| - 3;
      var t := s[..k];
      CommaPrefixGroups(t);
      CommaPrefixShift(s, t, k);
      CommaPrefixLastGroup(s, k);
    }
  }

  /** The last three runes of a string longer than three get one comma before them. */
  lemma CommaPrefixLastGroup(s: string, k: nat)
    requires 0 < k && k + 3 == |s|
    ensures CommaPrefix(s, |s|) == CommaPrefix(s, k) + "," + s[k..]
  {
    var p := CommaPrefix(s, k);
    var c0, c1, c2 := s[k], s[k + 1], s[k + 2];
    assert CommaPrefix(s, k + 1) == p + "," + [c0];
    assert CommaPrefix(s, k + 2) == (p + "," + [c0]) + [c1];
    assert CommaPrefix(s, k + 3) == ((p + "," + [c0]) + [c1]) + [c2];
    assert s[k..] == [c0, c1, c2];
  }

  lemma {:induction false} CommaPrefixNoComma(s: string, i: nat)
    requires i <= |s| <= 3
    ensures CommaPrefix(s, i) == s[..i]
  {
    if i > 0 {
      CommaPrefixNoComma(s, i - 1);
      assert s[..i] == s[..i - 1] + [s[i - 1]];
    }
  }

  /** As written, a negative number of three digits gets a comma right after
      its minus sign. */
  lemma AddCommasNegativeThreeDigits()
    ensures Decimal(-123) == "-123"
    ensures CommaPrefix(Decimal(-123), |Decimal(-123)|) == "-,123"
  {
    DecimalMinus123();
    CommaPrefixMinus123();
  }

  lemma DecimalMinus123()
    ensures Decimal(-123) == "-123"
  {
    assert Digits(1) == "1";
    assert Digits(12) == "12";
    assert Digits(123) == Digits(12) + "3";
  }

  lemma CommaPrefixMinus123()
    ensures CommaPrefix("-123", 4) == "-,123"
  {
    assert CommaPrefix("-123", 1) == "-";
    assert CommaPrefix("-123", 2) == "-,1";
    assert CommaPrefix("-123", 3) == "-,12";
  }

  /** Digit grouping with the sign kept outside the groups. */
  function AddCommasSigned(n: int): (r: string)
    ensures RemoveCommas(r) == Decimal(n)
    ensures n < 0 ==> |r| >= 2 && r[0] == '-' && r[1] != ','
  {
    var d := Digits(if n < 0 then -n else n);
    DigitsHaveNoComma(d);
    GroupThousandsRemoveCommas(d);
    GroupThousandsHead(d);
    if n < 0 then
      RemoveCommasAppend("-", GroupThousands(d));
      "-" + GroupThousands(d)
    else GroupThousands(d)
  }

  lemma DigitsHaveNoComma(d: string)
    requires forall i :: 0 <= i < |d| ==> '0' <= d[i] <= '9'
    ensures ',' !in d
  {
  }

  lemma {:induction false} GroupThousandsHead(s: string)
    requires |s| >= 1 && s[0] != ','
    ensures |GroupThousands(s)| >= 1 && GroupThousands(s)[0] == s[0]
    decreases |s|
  {
    if |s| > 3 {
      GroupThousandsHead(s[..|s| - 3]);
    }
  }
}
