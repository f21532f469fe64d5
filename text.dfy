/** Character classes and string helpers with Python's meaning: `str.isspace`
    (which is also what `\s` and `str.split()` use), ASCII letters, `\w`
    restricted to ASCII, `str.lower` on ASCII, whitespace tokenisation,
    `' '.join`, and decimal rendering of an integer (as in an f-string). */
module Text {

  /** A value of a text column: pandas may hold something that is not a
      string there (a missing value, a number). */
  datatype Cell = Str(value: string) | NonStr

  /** The characters for which Python's `str.isspace()` is true. */
  predicate IsSpace(c: char)
  {
    c == ' ' || ('\U{9}' <= c <= '\U{D}') || ('\U{1C}' <= c <= '\U{1F}')
    || c == '\U{85}' || c == '\U{A0}' || c == '\U{1680}'
    || ('\U{2000}' <= c <= '\U{200A}') || c == '\U{2028}' || c == '\U{2029}'
    || c == '\U{202F}' || c == '\U{205F}' || c == '\U{3000}'
  }

  predicate IsAsciiUpper(c: char) { 'A' <= c <= 'Z' }
  predicate IsAsciiLower(c: char) { 'a' <= c <= 'z' }
  predicate IsAsciiLetter(c: char) { IsAsciiUpper(c) || IsAsciiLower(c) }
  predicate IsDigit(c: char) { '0' <= c <= '9' }

  /** Regex `\w` on ASCII: letters, digits and the underscore. */
  predicate IsWordChar(c: char) { IsAsciiLetter(c) || IsDigit(c) || c == '_' }

  function ToLower(c: char): (d: char)
    ensures !IsAsciiUpper(d)
    ensures IsAsciiLetter(c) <==> IsAsciiLower(d)
    ensures IsSpace(c) <==> IsSpace(d)
  {
    if IsAsciiUpper(c) then (c as int + 32) as char else c
  }

  /** `str.lower()` on the ASCII letters. */
  function Lower(s: string): (r: string)
    ensures |r| == |s|
    ensures forall i :: 0 <= i < |s| ==> r[i] == ToLower(s[i])
  {
    seq(|s|, i requires 0 <= i < |s| => ToLower(s[i]))
  }

  /** A token of `str.split()`: non-empty and free of whitespace. */
  predicate IsToken(w: string)
  {
    |w| > 0 && forall i :: 0 <= i < |w| ==> !IsSpace(w[i])
  }

  /** The longest prefix of `s` containing no whitespace. */
  function LeadingRun(s: string): (w: string)
    ensures |w| <= |s| && w == s[..|w|]
    ensures forall i :: 0 <= i < |w| ==> !IsSpace(w[i])
    ensures |w| < |s| ==> IsSpace(s[|w|])
  {
    if s == [] || IsSpace(s[0]) then [] else [s[0]] + LeadingRun(s[1..])
  }

  /** Python's `str.split()` with no argument: the maximal whitespace-free
      runs of `s`, in order. Every token is made of characters of `s`. */
  function Tokens(s: string): (ts: seq<string>)
    ensures forall k :: 0 <= k < |ts| ==> IsToken(ts[k])
    ensures forall k, i :: 0 <= k < |ts| && 0 <= i < |ts[k]| ==> ts[k][i] in s
    decreases |s|
  {
    if s == [] then []
    else if IsSpace(s[0]) then Tokens(s[1..])
    else
      var w := LeadingRun(s);
      assert forall i :: 0 <= i < |w| ==> w[i] in s;
      var rest := Tokens(s[|w|..]);
      assert forall k, i :: 0 <= k < |rest| && 0 <= i < |rest[k]| ==> rest[k][i] in s;
      [w] + rest
  }

  /** Python's `' '.join(ts)`. */
  function Join(ts: seq<string>): string
  {
    if ts == [] then ""
    else if |ts| == 1 then ts[0]
    else ts[0] + " " + Join(ts[1..])
  }

  /** A string made of tokens separated by exactly one plain space, with no
      leading or trailing space. */
  predicate SingleSpaced(s: string)
  {
    && (forall i :: 0 <= i < |s| && IsSpace(s[i]) ==> s[i] == ' ')
    && (|s| > 0 ==> s[0] != ' ' && s[|s| - 1] != ' ')
    && (forall i :: 0 <= i < |s| - 1 && s[i] == ' ' ==> s[i + 1] != ' ')
  }

  lemma {:induction false} LeadingRunOfToken(w: string, rest: string)
    requires forall i :: 0 <= i < |w| ==> !IsSpace(w[i])
    requires rest == [] || IsSpace(rest[0])
    ensures LeadingRun(w + rest) == w
    decreases |w|
  {
    if w == [] {
      assert w + rest == rest;
    } else {
      assert (w + rest)[1..] == w[1..] + rest;
      LeadingRunOfToken(w[1..], rest);
    }
  }

  /** Splitting a join of tokens gives the tokens back. */
  lemma {:induction false} TokensOfJoin(ts: seq<string>)
    requires forall k :: 0 <= k < |ts| ==> IsToken(ts[k])
    ensures Tokens(Join(ts)) == ts
    decreases |ts|
  {
    if |ts| == 1 {
      TokensAfterToken(ts[0], []);
      assert ts[0] + [] == ts[0];
    } else if |ts| > 1 {
      var j := Join(ts[1..]);
      assert Join(ts) == ts[0] + (" " + j);
      TokensAfterToken(ts[0], " " + j);
      TokensAfterSpace(j);
      TokensOfJoin(ts[1..]);
      assert ts == [ts[0]] + ts[1..];
    }
  }

  /** A token followed by whitespace or nothing is split off first. */
  lemma TokensAfterToken(w: string, rest: string)
    requires IsToken(w) && (rest == [] || IsSpace(rest[0]))
    ensures Tokens(w + rest) == [w] + Tokens(rest)
  {
    LeadingRunOfToken(w, rest);
    assert (w + rest)[0] == w[0];
    assert (w + rest)[|w|..] == rest;
  }

  lemma TokensAfterSpace(j: string)
    ensures Tokens(" " + j) == Tokens(j)
  {
    assert (" " + j)[1..] == j;
  }

  /** A join of tokens is single-spaced, and each of its characters is a
      plain space or a character of one of the tokens. */
  lemma {:induction false} JoinSingleSpaced(ts: seq<string>)
    requires forall k :: 0 <= k < |ts| ==> IsToken(ts[k])
    ensures SingleSpaced(Join(ts))
    ensures forall i :: 0 <= i < |Join(ts)| ==>
              Join(ts)[i] == ' ' || exists k :: 0 <= k < |ts| && Join(ts)[i] in ts[k]
    decreases |ts|
  {
    if |ts| > 1 {
      JoinSingleSpaced(ts[1..]);
      var w := ts[0];
      var j := Join(ts[1..]);
      var s := w + " " + j;
      assert |j| > 0 by { JoinNonEmpty(ts[1..]); }
      forall i | 0 <= i < |s|
        ensures s[i] == ' ' || exists k :: 0 <= k < |ts| && s[i] in ts[k]
      {
        if i < |w| {
          assert s[i] == w[i] && s[i] in ts[0];
        } else if i > |w| {
          assert s[i] == j[i - |w| - 1];
          if j[i - |w| - 1] != ' ' {
            var k :| 0 <= k < |ts[1..]| && j[i - |w| - 1] in ts[1..][k];
            assert s[i] in ts[k + 1];
          }
        }
      }
    } else if |ts| == 1 {
      assert Join(ts) == ts[0];
      forall i | 0 <= i < |ts[0]| ensures ts[0][i] in ts[0] { }
    }
  }

  lemma {:induction false} JoinNonEmpty(ts: seq<string>)
    requires |ts| > 0 && forall k :: 0 <= k < |ts| ==> IsToken(ts[k])
    ensures |Join(ts)| > 0
  {
  }

  /** Decimal digits of `n`, as `str(n)` renders a non-negative int. */
  function NatToString(n: nat): (s: string)
    ensures |s| > 0
    ensures forall i :: 0 <= i < |s| ==> IsDigit(s[i])
    decreases n
  {
    if n < 10 then [Digit(n)] else NatToString(n / 10) + [Digit(n % 10)]
  }

  function Digit(d: nat): (c: char)
    requires d < 10
    ensures IsDigit(c)
  {
    ('0' as int + d) as char
  }

  /** Reading a string of decimal digits back as a number. */
  function ParseDigits(s: string): nat
    requires forall i :: 0 <= i < |s| ==> IsDigit(s[i])
    decreases |s|
  {
    if s == [] then 0
    else
      assert IsDigit(s[|s| - 1]);
      ParseDigits(s[..|s| - 1]) * 10 + (s[|s| - 1] as int - '0' as int)
  }

  /** The rendering is faithful: parsing it gives the number back. */
  lemma {:induction false} NatToStringRoundTrip(n: nat)
    ensures ParseDigits(NatToString(n)) == n
    decreases n
  {
    if n >= 10 {
      var s := NatToString(n);
      var p := NatToString(n / 10);
      assert s == p + [Digit(n % 10)];
      assert s[..|s| - 1] == p;
      NatToStringRoundTrip(n / 10);
    }
  }

  /** `sub` occurs in `s` at position `i`. */
  predicate OccursAt(s: string, sub: string, i: int)
  {
    0 <= i <= |s| - |sub| && s[i..i + |sub|] == sub
  }

  /** `sub` occurs in `s` at some position. */
  predicate Contains(s: string, sub: string)
  {
    exists i | 0 <= i <= |s| - |sub| :: OccursAt(s, sub, i)
  }
}
