/** The handful of Python 2 string operations the harness relies on:
    str() of an integer, long()/int() of a string, str.replace(tok, ''),
    str.endswith, the `in` substring test, str.split(sep), sep.join(parts)
    and str.lower(). Strings are sequences of characters. */
module Text {
  import opened Errors

  predicate IsDigit(c: char) {
    '0' <= c <= '9'
  }

  predicate AllDigits(s: string) {
    forall i :: 0 <= i < |s| ==> IsDigit(s[i])
  }

  function DigitChar(d: nat): (c: char)
    requires d < 10
    ensures IsDigit(c) && c as int - '0' as int == d
  {
    ['0', '1', '2', '3', '4', '5', '6', '7', '8', '9'][d]
  }

  /** Decimal digits of a natural number, without leading zeros. */
  function NatToString(n: nat): (s: string)
    decreases n
  {
    if n < 10 then [DigitChar(n)] else NatToString(n / 10) + [DigitChar(n % 10)]
  }

  /** Python's str(n) for an integer n. */
  function IntToString(n: int): string {
    if n < 0 then "-" + NatToString(-n) else NatToString(n)
  }

  /** The value of a string of decimal digits, most significant first. */
  function DigitsValue(s: string): nat
    requires AllDigits(s)
  {
    if s == [] then 0
    else DigitsValue(s[..|s| - 1]) * 10 + (s[|s| - 1] as int - '0' as int)
  }

  /** Python's long(s) (and int(s)) in base 10: an optional sign followed by
      at least one decimal digit; anything else raises ValueError. */
  function ParseInt(s: string): (r: Result<int>)
    ensures r.Err? ==> r.error == ValueError(s)
  {
    var signed := |s| > 0 && (s[0] == '-' || s[0] == '+');
    var digits := if signed then s[1..] else s;
    if digits == [] || !AllDigits(digits) then Err(ValueError(s))
    else if signed && s[0] == '-' then Ok(-(DigitsValue(digits) as int))
    else Ok(DigitsValue(digits))
  }

  lemma {:induction false} NatToStringDigits(n: nat)
    ensures |NatToString(n)| > 0 && AllDigits(NatToString(n))
    ensures DigitsValue(NatToString(n)) == n
    decreases n
  {
    if n >= 10 {
      NatToStringDigits(n / 10);
      var s := NatToString(n);
      assert s[..|s| - 1] == NatToString(n / 10);
    }
  }

  /** A string of digits parses to its value, and with a minus sign in
      front to the opposite. */
  lemma ParseIntDigits(d: string)
    requires |d| > 0 && AllDigits(d)
    ensures ParseInt(d) == Ok(DigitsValue(d) as int)
  {
    assert IsDigit(d[0]);
  }

  lemma ParseIntMinusDigits(d: string)
    requires |d| > 0 && AllDigits(d)
    ensures ParseInt("-" + d) == Ok(-(DigitsValue(d) as int))
  {
    var s := "-" + d;
    assert s[0] == '-' && s[1..] == d;
  }

  /** long(str(n)) == n: printing an integer and parsing it back is the
      identity. */
  lemma ParseIntToString(n: int)
    ensures ParseInt(IntToString(n)) == Ok(n)
  {
    if n < 0 {
      NatToStringDigits(-n);
      ParseIntMinusDigits(NatToString(-n));
    } else {
      NatToStringDigits(n);
      ParseIntDigits(NatToString(n));
    }
  }

  /** str(n) is made of digits and at most a minus sign. */
  lemma IntToStringChars(n: int)
    ensures forall i :: 0 <= i < |IntToString(n)| ==> IntToString(n)[i] == '-' || IsDigit(IntToString(n)[i])
  {
    if n < 0 {
      var d := NatToString(-n);
      NatToStringDigits(-n);
      forall i | 0 <= i < |"-" + d| ensures ("-" + d)[i] == '-' || IsDigit(("-" + d)[i]) {
        if i > 0 {
          assert ("-" + d)[i] == d[i - 1];
        }
      }
    } else {
      NatToStringDigits(n);
    }
  }

  /** Python's s.replace(tok, ''): scan left to right and drop every
      non-overlapping occurrence of tok. */
  function RemoveAll(s: string, tok: string): (r: string)
    requires |tok| > 0
    ensures |r| <= |s|
  {
    if |s| < |tok| then s
    else if s[..|tok|] == tok then RemoveAll(s[|tok|..], tok)
    else [s[0]] + RemoveAll(s[1..], tok)
  }

  /** When the first character of tok never occurs in s, replace(tok, '')
      on s followed by tok gives s back. */
  lemma {:induction false} RemoveAllAppended(s: string, tok: string)
    requires |tok| > 0
    requires forall i :: 0 <= i < |s| ==> s[i] != tok[0]
    ensures RemoveAll(s + tok, tok) == s
  {
    var t := s + tok;
    if s == [] {
      assert t[..|tok|] == tok && t[|tok|..] == [];
    } else {
      assert t[..|tok|][0] == s[0];
      assert t[1..] == s[1..] + tok;
      RemoveAllAppended(s[1..], tok);
      assert [s[0]] + s[1..] == s;
    }
  }

  predicate EndsWith(s: string, suffix: string) {
    |suffix| <= |s| && s[|s| - |suffix|..] == suffix
  }

  /** Python's `needle in hay` for strings. */
  predicate Contains(hay: string, needle: string) {
    if |hay| < |needle| then false
    else hay[..|needle|] == needle || Contains(hay[1..], needle)
  }

  /** Python's sep.join(parts). */
  function Join(sep: string, parts: seq<string>): string {
    if parts == [] then ""
    else if |parts| == 1 then parts[0]
    else parts[0] + sep + Join(sep, parts[1..])
  }

  /** Python's s.split(c) with an explicit one-character separator: every
      occurrence of c separates two pieces, empty pieces included. */
  function Split(s: string, c: char): (pieces: seq<string>)
    ensures |pieces| >= 1
    ensures forall k, i :: 0 <= k < |pieces| && 0 <= i < |pieces[k]| ==> pieces[k][i] != c
  {
    if s == [] then [""]
    else
      var rest := Split(s[1..], c);
      if s[0] == c then [""] + rest
      else [[s[0]] + rest[0]] + rest[1..]
  }

  function Last(pieces: seq<string>): string
    requires |pieces| > 0
  {
    pieces[|pieces| - 1]
  }

  /** str.lower() on the ASCII letters; other characters are kept. */
  function Lower(s: string): (r: string)
    ensures |r| == |s|
    ensures forall i :: 0 <= i < |s| ==> r[i] == LowerChar(s[i])
  {
    if s == [] then [] else [LowerChar(s[0])] + Lower(s[1..])
  }

  function LowerChar(c: char): char {
    if 'A' <= c <= 'Z' then (c as int - 'A' as int + 'a' as int) as char else c
  }

  /** The characters Python's str.rstrip() removes by default. */
  predicate IsSpace(c: char) {
    c == ' ' || c == '\t' || c == '\n' || c == '\r' || c as int == 0x0B || c as int == 0x0C
  }

  /** str.rstrip(): the longest prefix of s that does not end in
      whitespace; everything cut off is whitespace. */
  function RStrip(s: string): (r: string)
    ensures |r| <= |s| && r == s[..|r|]
    ensures |r| == 0 || !IsSpace(r[|r| - 1])
    ensures forall i :: |r| <= i < |s| ==> IsSpace(s[i])
  {
    if s == [] || !IsSpace(s[|s| - 1]) then s else RStrip(s[..|s| - 1])
  }
}
