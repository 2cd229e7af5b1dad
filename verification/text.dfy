/** Code-point strings and the JavaScript text primitives the parsers use:
    the white-space class (`\s`, `String.prototype.trim`), ASCII digits,
    `toLowerCase`, `parseInt` of a digit run and the `${n}` rendering of a
    number. */
module Text {

  /** The characters JavaScript's `\s` and `trim()` treat as white space
      (WhiteSpace and LineTerminator of ECMA-262). */
  predicate IsSpace(c: char) {
    || c == ' ' || c == '\t' || c == '\n' || c == '\r' || c == '\U{000B}' || c == '\U{000C}'
    || c == '\U{00A0}' || c == '\U{1680}' || ('\U{2000}' <= c <= '\U{200A}')
    || c == '\U{2028}' || c == '\U{2029}' || c == '\U{202F}' || c == '\U{205F}'
    || c == '\U{3000}' || c == '\U{FEFF}'
  }

  /** `\d`: ASCII decimal digits only. */
  predicate IsDigit(c: char) {
    '0' <= c <= '9'
  }

  predicate IsUpper(c: char) {
    'A' <= c <= 'Z'
  }

  /** A non-empty run of digits, the text `\d+` matches. */
  predicate IsNumeral(s: string) {
    |s| > 0 && forall i :: 0 <= i < |s| ==> IsDigit(s[i])
  }

  /** A possibly empty run of white space, the text `\s*` matches. */
  predicate IsBlank(s: string) {
    forall i :: 0 <= i < |s| ==> IsSpace(s[i])
  }

  /** Length of the longest prefix of `s` whose characters all satisfy `p`
      (what a greedy `[...]*` consumes). */
  function Span(s: string, p: char -> bool): (n: nat)
    ensures n <= |s|
    ensures forall i :: 0 <= i < n ==> p(s[i])
    ensures n < |s| ==> !p(s[n])
  {
    if s == [] || !p(s[0]) then 0 else 1 + Span(s[1..], p)
  }

  /** A greedy run stops exactly at the end of a prefix all of whose characters
      qualify, when the character after it does not. */
  lemma {:induction false} SpanOfConcat(a: string, b: string, p: char -> bool)
    requires forall i :: 0 <= i < |a| ==> p(a[i])
    requires b == [] || !p(b[0])
    ensures Span(a + b, p) == |a|
  {
    if a != [] {
      assert (a + b)[1..] == a[1..] + b;
      SpanOfConcat(a[1..], b, p);
    } else {
      assert a + b == b;
    }
  }

  /** `s` cut after its longest prefix of characters satisfying `p`. */
  function SplitSpan(s: string, p: char -> bool): (r: (string, string))
    ensures r.0 + r.1 == s
    ensures forall i :: 0 <= i < |r.0| ==> p(r.0[i])
    ensures r.1 == [] || !p(r.1[0])
  {
    var n := Span(s, p);
    (s[..n], s[n..])
  }

  /** The cut is unique: a qualifying prefix followed by a non-qualifying
      character (or nothing) is exactly what `SplitSpan` finds. */
  lemma SplitSpanOfConcat(a: string, b: string, p: char -> bool)
    requires forall i :: 0 <= i < |a| ==> p(a[i])
    requires b == [] || !p(b[0])
    ensures SplitSpan(a + b, p) == (a, b)
  {
    SpanOfConcat(a, b, p);
    assert (a + b)[..|a|] == a && (a + b)[|a|..] == b;
  }

  /** Two classes that agree on every character of `s` cut it in the same place. */
  lemma {:induction false} SplitSpanAgree(s: string, p: char -> bool, q: char -> bool)
    requires forall i :: 0 <= i < |s| ==> (p(s[i]) <==> q(s[i]))
    ensures SplitSpan(s, p) == SplitSpan(s, q)
  {
    SpanAgree(s, p, q);
  }

  lemma {:induction false} SpanAgree(s: string, p: char -> bool, q: char -> bool)
    requires forall i :: 0 <= i < |s| ==> (p(s[i]) <==> q(s[i]))
    ensures Span(s, p) == Span(s, q)
  {
    if s != [] && p(s[0]) {
      SpanAgree(s[1..], p, q);
    }
  }

  /** Length of the longest suffix of `s` whose characters are white space. */
  function TrailingSpace(s: string): (n: nat)
    ensures n <= |s|
    ensures forall i :: |s| - n <= i < |s| ==> IsSpace(s[i])
    ensures n < |s| ==> !IsSpace(s[|s| - n - 1])
  {
    if s == [] || !IsSpace(s[|s| - 1]) then 0 else 1 + TrailingSpace(s[..|s| - 1])
  }

  /** `String.prototype.trim`: the text between the leading and the trailing
      white-space runs. */
  function Trim(s: string): (r: string)
    ensures |r| <= |s|
    ensures r == [] || (!IsSpace(r[0]) && !IsSpace(r[|r| - 1]))
    ensures r == [] <==> IsBlank(s)
    ensures exists i :: 0 <= i <= |s| - |r| && s[i..i + |r|] == r
                        && IsBlank(s[..i]) && IsBlank(s[i + |r|..])
  {
    var lead := Span(s, IsSpace);
    var stop := if lead == |s| then |s| else |s| - TrailingSpace(s);
    TrimParts(s, lead, stop);
    s[lead..stop]
  }

  /** The trimmed text runs from the first non-space character to the last. */
  lemma TrimParts(s: string, lead: nat, stop: nat)
    requires lead == Span(s, IsSpace)
    requires stop == if lead == |s| then |s| else |s| - TrailingSpace(s)
    ensures lead <= stop <= |s|
    ensures var r := s[lead..stop];
      && (r == [] || (!IsSpace(r[0]) && !IsSpace(r[|r| - 1])))
      && (r == [] <==> IsBlank(s))
      && (exists i :: 0 <= i <= |s| - |r| && s[i..i + |r|] == r
                      && IsBlank(s[..i]) && IsBlank(s[i + |r|..]))
  {
    var r := s[lead..stop];
    if lead < |s| {
      assert !IsSpace(s[lead]);
      assert lead < stop;
      assert !IsBlank(s);
      assert r[0] == s[lead] && r[|r| - 1] == s[stop - 1];
    }
    assert lead + |r| == stop;
    assert IsBlank(s[..lead]) by {
      forall i | 0 <= i < lead
        ensures IsSpace(s[..lead][i])
      {
        assert s[..lead][i] == s[i];
      }
    }
    assert IsBlank(s[stop..]) by {
      forall i | 0 <= i < |s| - stop
        ensures IsSpace(s[stop..][i])
      {
        assert s[stop..][i] == s[stop + i];
      }
    }
    assert 0 <= lead <= |s| - |r| && s[lead..lead + |r|] == r
        && IsBlank(s[..lead]) && IsBlank(s[lead + |r|..]);
  }

  /** Text with no white space at either end is its own trim. */
  lemma TrimOfTrimmed(s: string)
    requires s == [] || (!IsSpace(s[0]) && !IsSpace(s[|s| - 1]))
    ensures Trim(s) == s
  {
    if s != [] {
      assert Span(s, IsSpace) == 0;
      assert TrailingSpace(s) == 0;
    }
  }

  /** Trimming twice is trimming once. */
  lemma TrimIdempotent(s: string)
    ensures Trim(Trim(s)) == Trim(s)
  {
    TrimOfTrimmed(Trim(s));
  }

  /** `toLowerCase` on the ASCII letters; every other character is kept. */
  function LowerChar(c: char): (r: char)
    ensures !IsUpper(r)
    ensures !IsUpper(c) ==> r == c
    ensures IsSpace(r) <==> IsSpace(c)
  {
    if IsUpper(c) then (c as int - 'A' as int + 'a' as int) as char else c
  }

  function Lower(s: string): (r: string)
    ensures |r| == |s|
    ensures forall i :: 0 <= i < |s| ==> r[i] == LowerChar(s[i])
  {
    seq(|s|, i requires 0 <= i < |s| => LowerChar(s[i]))
  }

  /** Text without ASCII capitals is unchanged by lower-casing. */
  lemma LowerOfLower(s: string)
    requires forall i :: 0 <= i < |s| ==> !IsUpper(s[i])
    ensures Lower(s) == s
  {
  }

  /** The normalisation the date helpers apply before matching:
      `input.toLowerCase().trim()`. */
  function Normalize(s: string): string {
    Trim(Lower(s))
  }

  /** Nothing normalises to nothing. */
  lemma NormalizeNil()
    ensures Normalize([]) == []
  {
    assert Lower([]) == [];
  }

  /** Normalising twice is normalising once: `Normalize(s)` is a piece of
      `Lower(s)`, so it has no capitals, and `Trim` leaves no white space at
      its ends. */
  lemma NormalizeIdempotent(s: string)
    ensures Normalize(Normalize(s)) == Normalize(s)
  {
    TrimNoUpper(Lower(s));
    NormalizeCanonical(Trim(Lower(s)));
  }

  /** Trimming text without capitals leaves none. */
  lemma TrimNoUpper(l: string)
    requires forall j :: 0 <= j < |l| ==> !IsUpper(l[j])
    ensures forall j :: 0 <= j < |Trim(l)| ==> !IsUpper(Trim(l)[j])
  {
    var lead := Span(l, IsSpace);
    var stop := if lead == |l| then |l| else |l| - TrailingSpace(l);
    TrimParts(l, lead, stop);
    SliceNoUpper(l, lead, stop);
  }

  lemma SliceNoUpper(l: string, a: nat, b: nat)
    requires a <= b <= |l|
    requires forall j :: 0 <= j < |l| ==> !IsUpper(l[j])
    ensures forall j :: 0 <= j < b - a ==> !IsUpper(l[a..b][j])
  {
  }

  /** Lower-case text with no white space at either end is already normalised. */
  lemma NormalizeCanonical(s: string)
    requires forall i :: 0 <= i < |s| ==> !IsUpper(s[i])
    requires s == [] || (!IsSpace(s[0]) && !IsSpace(s[|s| - 1]))
    ensures Normalize(s) == s
  {
    LowerOfLower(s);
    TrimOfTrimmed(s);
  }

  function DigitValue(c: char): nat
    requires IsDigit(c)
  {
    c as int - '0' as int
  }

  function DigitChar(d: nat): (c: char)
    requires d < 10
    ensures IsDigit(c) && DigitValue(c) == d
  {
    ('0' as int + d) as char
  }

  /** `parseInt` of a run of decimal digits (leading zeros allowed). */
  function NumeralValue(s: string): nat
    requires forall i :: 0 <= i < |s| ==> IsDigit(s[i])
  {
    if s == [] then 0 else 10 * NumeralValue(s[..|s| - 1]) + DigitValue(s[|s| - 1])
  }

  /** The decimal rendering of a natural number, as `${n}` produces it. */
  function Show(n: nat): (r: string)
    ensures IsNumeral(r)
    ensures NumeralValue(r) == n
    ensures |r| == 1 || r[0] != '0'
    ensures n > 0 ==> r[0] != '0'
  {
    if n < 10 then [DigitChar(n)]
    else
      var r := Show(n / 10) + [DigitChar(n % 10)];
      assert r[..|r| - 1] == Show(n / 10);
      r
  }
}
