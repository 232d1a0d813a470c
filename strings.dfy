/**
 The System.String members the program calls, with ordinal, ASCII-only
 semantics: IndexOf(string), Contains(string), Contains(char),
 Replace of a one-character string by another, ToLower, and the decimal text
 Console.WriteLine prints for an int.
 */
module Strings {

  /** value occurs in s starting at position i. */
  predicate OccursAt(s: string, value: string, i: int)
  {
    0 <= i && i + |value| <= |s| && s[i..i + |value|] == value
  }

  /** The first occurrence of value in s at or after position from, or -1. */
  function IndexOfFrom(s: string, value: string, from: nat): (r: int)
    requires from <= |s|
    ensures r == -1 || (from <= r && OccursAt(s, value, r))
    decreases |s| - from
  {
    if OccursAt(s, value, from) then from
    else if from == |s| then -1
    else IndexOfFrom(s, value, from + 1)
  }

  /** No occurrence lies between from and the one IndexOfFrom finds (or the end). */
  lemma {:induction false} IndexOfFromFirst(s: string, value: string, from: nat)
    requires from <= |s|
    ensures forall j :: from <= j && (IndexOfFrom(s, value, from) == -1 || j < IndexOfFrom(s, value, from)) ==>
      !OccursAt(s, value, j)
    decreases |s| - from
  {
    if !OccursAt(s, value, from) && from < |s| {
      IndexOfFromFirst(s, value, from + 1);
    }
  }

  /**
   String.IndexOf(string), ordinal: the position of the first occurrence of
   value in s, or -1 when there is none; the empty value occurs at 0.
   */
  function IndexOf(s: string, value: string): (r: int)
    ensures r == -1 || OccursAt(s, value, r)
  {
    IndexOfFrom(s, value, 0)
  }

  /** IndexOf finds the first occurrence: none lies before it, and -1 means there is none. */
  lemma IndexOfFirst(s: string, value: string)
    ensures forall j :: 0 <= j && (IndexOf(s, value) == -1 || j < IndexOf(s, value)) ==> !OccursAt(s, value, j)
  {
    IndexOfFromFirst(s, value, 0);
  }

  /** String.Contains(string), ordinal: whether IndexOf finds value in s. */
  function Contains(s: string, value: string): (b: bool)
    ensures b ==> |value| <= |s|
  {
    IndexOf(s, value) >= 0
  }

  /** Contains holds exactly when value occurs somewhere in s. */
  lemma ContainsOccurs(s: string, value: string)
    ensures Contains(s, value) <==> exists i :: OccursAt(s, value, i)
  {
    IndexOfFirst(s, value);
  }

  /** String.Contains(char): whether c is one of the characters of s. */
  function ContainsChar(s: string, c: char): (b: bool)
    ensures b <==> exists i :: 0 <= i < |s| && s[i] == c
  {
    c in s
  }

  /** A one-character string occurs exactly where that character stands. */
  lemma OccursAtChar(s: string, c: char, i: int)
    ensures OccursAt(s, [c], i) <==> 0 <= i < |s| && s[i] == c
  {
    if 0 <= i < |s| {
      assert s[i..i + 1] == [s[i]];
    }
  }

  /** Searching for a one-character string is searching for the character. */
  lemma ContainsSingleton(s: string, c: char)
    ensures Contains(s, [c]) <==> ContainsChar(s, c)
  {
    ContainsOccurs(s, [c]);
    if c in s {
      var i :| 0 <= i < |s| && s[i] == c;
      OccursAtChar(s, c, i);
    }
    forall i | OccursAt(s, [c], i)
      ensures c in s
    {
      OccursAtChar(s, c, i);
    }
  }

  /** IndexOf of a one-character string: the first position holding that character. */
  lemma IndexOfChar(s: string, c: char)
    ensures IndexOf(s, [c]) == -1 || (0 <= IndexOf(s, [c]) < |s| && s[IndexOf(s, [c])] == c)
    ensures forall j :: 0 <= j < |s| && (IndexOf(s, [c]) == -1 || j < IndexOf(s, [c])) ==> s[j] != c
    ensures IndexOf(s, [c]) == -1 <==> c !in s
  {
    var r := IndexOf(s, [c]);
    IndexOfFirst(s, [c]);
    OccursAtChar(s, c, r);
    forall j | 0 <= j < |s| && (r == -1 || j < r)
      ensures s[j] != c
    {
      OccursAtChar(s, c, j);
    }
  }

  /**
   String.Replace(string, string) called with a one-character old value and a
   one-character new value: every oldChar in s becomes newChar, nothing else changes.
   */
  function ReplaceChar(s: string, oldChar: char, newChar: char): (r: string)
    ensures |r| == |s|
    ensures forall i :: 0 <= i < |s| && s[i] == oldChar ==> r[i] == newChar
    ensures forall i :: 0 <= i < |s| && s[i] != oldChar ==> r[i] == s[i]
    ensures oldChar != newChar ==> oldChar !in r
  {
    seq(|s|, i requires 0 <= i < |s| => if s[i] == oldChar then newChar else s[i])
  }

  /** Replacing a character that does not occur leaves the string as it is. */
  lemma ReplaceAbsent(s: string, oldChar: char, newChar: char)
    requires oldChar !in s
    ensures ReplaceChar(s, oldChar, newChar) == s
  {
  }

  predicate IsUpper(c: char) { 'A' <= c <= 'Z' }

  /** Char.ToLower on ASCII: an upper-case letter becomes its lower-case letter. */
  function LowerChar(c: char): (l: char)
    ensures !IsUpper(l)
    ensures IsUpper(c) ==> 'a' <= l <= 'z' && l as int - 'a' as int == c as int - 'A' as int
    ensures !IsUpper(c) ==> l == c
  {
    if IsUpper(c) then (c as int - 'A' as int + 'a' as int) as char else c
  }

  /** String.ToLower on ASCII text: LowerChar applied to every character. */
  function ToLower(s: string): (r: string)
    ensures |r| == |s|
    ensures forall i :: 0 <= i < |s| ==> r[i] == LowerChar(s[i])
    ensures forall i :: 0 <= i < |s| ==> !IsUpper(r[i])
    ensures forall i :: 0 <= i < |s| && !IsUpper(s[i]) ==> r[i] == s[i]
  {
    seq(|s|, i requires 0 <= i < |s| => LowerChar(s[i]))
  }

  /** Lower-casing twice is lower-casing once, and what is left has no upper-case letter. */
  lemma ToLowerIdempotent(s: string)
    ensures ToLower(ToLower(s)) == ToLower(s)
    ensures forall i :: 0 <= i < |s| ==> !IsUpper(ToLower(s)[i])
  {
  }

  predicate IsDigit(c: char) { '0' <= c <= '9' }

  function DigitChar(d: nat): (c: char)
    requires d < 10
    ensures IsDigit(c) && c as int - '0' as int == d
  {
    ('0' as int + d) as char
  }

  /** Decimal digits of n, most significant first, with no leading zero. */
  function NatToString(n: nat): (r: string)
    ensures |r| >= 1
    ensures forall i :: 0 <= i < |r| ==> IsDigit(r[i])
    ensures |r| > 1 ==> r[0] != '0'
  {
    if n < 10 then [DigitChar(n)] else NatToString(n / 10) + [DigitChar(n % 10)]
  }

  /** The number a string of decimal digits denotes. */
  function DigitsValue(s: string): nat
    requires forall i :: 0 <= i < |s| ==> IsDigit(s[i])
  {
    if s == [] then 0
    else
      assert IsDigit(s[|s| - 1]);
      DigitsValue(s[..|s| - 1]) * 10 + (s[|s| - 1] as int - '0' as int)
  }

  /** Reading the printed digits back gives the number. */
  lemma {:induction false} NatToStringRoundTrip(n: nat)
    ensures DigitsValue(NatToString(n)) == n
  {
    if n >= 10 {
      var r := NatToString(n);
      assert r[..|r| - 1] == NatToString(n / 10);
      NatToStringRoundTrip(n / 10);
    }
  }

  /**
   Int32.ToString() for Console.WriteLine(int): a '-' for a negative number,
   then its decimal digits (the sign and digits of the culture in force are
   taken to be the ASCII ones).
   */
  function IntToString(i: int): (r: string)
    ensures i < 0 <==> |r| > 0 && r[0] == '-'
    ensures i >= 0 ==> (forall k :: 0 <= k < |r| ==> IsDigit(r[k])) && DigitsValue(r) == i
    ensures i >= 0 ==> |r| >= 1 && (|r| > 1 ==> r[0] != '0')
    ensures i < 0 ==> (forall k :: 1 <= k < |r| ==> IsDigit(r[k])) && DigitsValue(r[1..]) == -i
    ensures i < 0 ==> |r| >= 2 && (|r| > 2 ==> r[1] != '0')
  {
    if i < 0 then
      NatToStringRoundTrip(-i);
      assert ("-" + NatToString(-i))[1..] == NatToString(-i);
      "-" + NatToString(-i)
    else
      NatToStringRoundTrip(i);
      NatToString(i)
  }
}
