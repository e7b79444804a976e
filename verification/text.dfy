/** The ASCII subset of the Python string operations the crawler applies to labels and page text:
    `str.split(',')[0]`, `str.strip()`, `str.lower()` and `str.capitalize()`. */
module Text {
  /** `str.isspace()` restricted to ASCII: space, tab, line feed, carriage return, vertical tab,
      form feed and the four separators 0x1C-0x1F. */
  predicate IsSpace(c: char) {
    c == ' ' || c == '\t' || c == '\n' || c == '\r' || c == '\U{000B}' || c == '\U{000C}'
    || ('\U{001C}' <= c <= '\U{001F}')
  }

  predicate IsUpper(c: char) { 'A' <= c <= 'Z' }

  predicate IsLower(c: char) { 'a' <= c <= 'z' }

  /** The character class `[a-zA-Z]`. */
  predicate IsLetter(c: char) { IsUpper(c) || IsLower(c) }

  predicate AllSpace(s: string) {
    forall i :: 0 <= i < |s| ==> IsSpace(s[i])
  }

  /** A city key: nothing but the lower-case letters `a`-`z` (possibly empty). */
  predicate IsKey(s: string) {
    forall i :: 0 <= i < |s| ==> IsLower(s[i])
  }

  function LowerChar(c: char): char {
    if IsUpper(c) then (c as int + 32) as char else c
  }

  function UpperChar(c: char): char {
    if IsLower(c) then (c as int - 32) as char else c
  }

  /** `s.lower()` */
  function Lower(s: string): string {
    seq(|s|, i requires 0 <= i < |s| => LowerChar(s[i]))
  }

  /** `s.capitalize()`: first character upper case, the rest lower case. */
  function Capitalize(s: string): string {
    if s == [] then [] else [UpperChar(s[0])] + Lower(s[1..])
  }

  /** `s.split(',')[0]`: the longest prefix of `s` without a comma. */
  function BeforeComma(s: string): (r: string)
    ensures r <= s
    ensures ',' !in r
    ensures |r| < |s| ==> s[|r|] == ','
  {
    if s == [] || s[0] == ',' then [] else [s[0]] + BeforeComma(s[1..])
  }

  /** The number of whitespace characters `s` starts with. */
  function LeadingSpaces(s: string): (n: nat)
    ensures n <= |s|
    ensures forall i :: 0 <= i < n ==> IsSpace(s[i])
    ensures n == |s| || !IsSpace(s[n])
  {
    if s != [] && IsSpace(s[0]) then
      var n := 1 + LeadingSpaces(s[1..]);
      assert forall i :: 1 <= i < n ==> s[i] == s[1..][i - 1];
      n
    else 0
  }

  /** The number of whitespace characters `s` ends with. */
  function TrailingSpaces(s: string): (n: nat)
    ensures n <= |s|
    ensures forall i :: |s| - n <= i < |s| ==> IsSpace(s[i])
    ensures n == |s| || !IsSpace(s[|s| - n - 1])
  {
    if s != [] && IsSpace(s[|s| - 1]) then
      var n := 1 + TrailingSpaces(s[..|s| - 1]);
      assert forall i :: |s| - n <= i < |s| - 1 ==> s[i] == s[..|s| - 1][i];
      n
    else 0
  }

  /** `s.lstrip()` */
  function LStrip(s: string): (r: string)
    ensures r == [] || !IsSpace(r[0])
  {
    s[LeadingSpaces(s)..]
  }

  /** `s.rstrip()` */
  function RStrip(s: string): (r: string)
    ensures r == [] || !IsSpace(r[|r| - 1])
  {
    s[..|s| - TrailingSpaces(s)]
  }

  /** `s.strip()`: whitespace removed from both ends. */
  function Strip(s: string): (r: string)
    ensures r == [] || (!IsSpace(r[0]) && !IsSpace(r[|r| - 1]))
  {
    RStrip(LStrip(s))
  }

  /** `strip()` keeps a slice of its input and removes only whitespace around it. */
  lemma {:induction false} StripSlice(s: string) returns (i: nat)
    ensures i + |Strip(s)| <= |s| && Strip(s) == s[i..i + |Strip(s)|]
    ensures AllSpace(s[..i]) && AllSpace(s[i + |Strip(s)|..])
  {
    i := LeadingSpaces(s);
    var l := s[i..];
    var t := TrailingSpaces(l);
    assert Strip(s) == l[..|l| - t] == s[i..i + |l| - t];
    var tail := s[i + |l| - t..];
    forall j | 0 <= j < |tail| ensures IsSpace(tail[j]) {
      assert tail[j] == l[|l| - t + j];
    }
  }

  /** `strip()` only removes characters: every character it keeps comes from its input. */
  lemma {:induction false} StripWithin(s: string)
    ensures |Strip(s)| <= |s| && forall c :: c in Strip(s) ==> c in s
  {
    var i := StripSlice(s);
    forall c | c in Strip(s) ensures c in s {
      var j :| 0 <= j < |Strip(s)| && Strip(s)[j] == c;
      assert s[i + j] == c;
    }
  }

  /** A string whose ends are not whitespace is left alone by `strip()`. */
  lemma {:induction false} StripTrimmed(s: string)
    requires s == [] || (!IsSpace(s[0]) && !IsSpace(s[|s| - 1]))
    ensures Strip(s) == s
  {
  }

  /** A string without upper-case letters is unchanged by `lower()`; in particular a key is. */
  lemma {:induction false} LowerKey(k: string)
    requires forall i :: 0 <= i < |k| ==> !IsUpper(k[i])
    ensures Lower(k) == k
  {
  }

  /** `lower()` works character by character. */
  lemma {:induction false} LowerConcat(a: string, b: string)
    ensures Lower(a + b) == Lower(a) + Lower(b)
  {
  }

  /** Keys survive the CSV round trip: a key written as `key.capitalize()` and read back with
      `.strip().lower()` is the key again. */
  lemma {:induction false} CapitalizeReadBack(k: string)
    requires IsKey(k)
    ensures Lower(Strip(Capitalize(k))) == k
  {
    if k != [] {
      var c := Capitalize(k);
      LowerKey(k[1..]);
      assert c == [UpperChar(k[0])] + k[1..];
      UpperIsLetter(k[0]);
      assert Lower(c) == k;
      StripTrimmed(c);
    }
  }

  lemma {:induction false} UpperIsLetter(c: char)
    requires IsLower(c)
    ensures IsUpper(UpperChar(c)) && LowerChar(UpperChar(c)) == c
  {
  }
}
