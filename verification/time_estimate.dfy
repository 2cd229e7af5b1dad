/** The time-estimate codec of `src/lib/date-utils.ts`: `formatTimeEstimate`
    renders minutes as `Hh Mm`, `Hh` or `Mm`; `parseTimeEstimate` tries an
    ordered table of four anchored patterns and the first match wins.

    Each pattern is modelled by a matcher that returns the pieces of text the
    regular expression consumed (a `Capture`). `Spell` glues a capture back
    together; the matcher is sound (`Spell` of its capture is the input) and
    complete (`MatchComplete`: it finds every well-formed capture). */
module TimeEstimate {
  import opened Wrappers
  import opened Text
  import opened Numeric
  import opened Seqs

  /** A number of hours or minutes: a digit run with an optional fraction after a dot. */
  datatype Amount = Amount(whole: string, fraction: Option<string>)

  /** The optional minutes part of the first pattern: blanks, digits, blanks, `m` and a suffix. */
  datatype MinutesTail = MinutesTail(lead: string, digits: string, gap: string, unit: string)

  /** What one pattern consumed: the amount, the blanks before the unit letter,
      the letter (`h` or `m`), the rest of the unit word, and (first pattern only)
      a trailing minutes part. */
  datatype Capture = Capture(amount: Amount, gap: string, letter: char, unit: string, minutes: Option<MinutesTail>)

  /** One row of the pattern table: an hours pattern (letter `h`, fractional
      amount allowed, possibly followed by a minutes part) or a minutes pattern
      (letter `m`, whole numbers only). `units` lists what may follow the letter. */
  datatype Pattern =
    | HoursPattern(units: set<string>, allowsMinutes: bool)
    | MinutesPattern(units: set<string>)

  /** After `m`: nothing, `in`, `ins`, `inute` or `inutes` (m, min, mins, minute, minutes). */
  const MinuteSuffixes: set<string> := {"", "in", "ins", "inute", "inutes"}

  /** After `h`: nothing, `our` or `ours` (h, hour, hours). */
  const HourSuffixes: set<string> := {"", "our", "ours"}

  /** The table of date-utils.ts:50-59, in its order:
      1. amount, blanks, h / hour / hours, optionally blanks + whole minutes + m-word;
      2. whole number, blanks, m-word;
      3. amount, blanks, hour / hours;
      4. whole number, blanks, minute / minutes. */
  const Patterns: seq<Pattern> := [
    HoursPattern(HourSuffixes, true),
    MinutesPattern(MinuteSuffixes),
    HoursPattern({"our", "ours"}, false),
    MinutesPattern({"inute", "inutes"})
  ]

  function Letter(p: Pattern): char {
    if p.HoursPattern? then 'h' else 'm'
  }

  predicate IsLowerLetter(c: char) {
    'a' <= c <= 'z'
  }

  /** Characters that can belong to a unit word: everything that cannot start
      the minutes part. */
  predicate IsWordChar(c: char) {
    !IsSpace(c) && !IsDigit(c)
  }

  /** Every unit word of the pattern is made of lower-case ASCII letters. */
  ghost predicate PatternOk(p: Pattern) {
    forall u :: u in p.units ==> forall i :: 0 <= i < |u| ==> IsLowerLetter(u[i])
  }

  lemma PatternsOk()
    ensures forall i :: 0 <= i < |Patterns| ==> PatternOk(Patterns[i])
  {
  }

  /** The text of amount `a` followed by `rest`. */
  function SpellAmountThen(a: Amount, rest: string): string {
    a.whole + (if a.fraction.Some? then ['.'] + (a.fraction.value + rest) else rest)
  }

  function SpellTail(t: MinutesTail): string {
    t.lead + (t.digits + (t.gap + (['m'] + t.unit)))
  }

  /** The text a capture stands for. */
  function Spell(c: Capture): string {
    SpellAmountThen(c.amount, c.gap + ([c.letter] + (c.unit + TailText(c.minutes))))
  }

  function TailText(t: Option<MinutesTail>): string {
    if t.Some? then SpellTail(t.value) else []
  }

  predicate WfAmount(a: Amount, allowFraction: bool) {
    IsNumeral(a.whole) && (a.fraction.Some? ==> allowFraction && IsNumeral(a.fraction.value))
  }

  predicate WfTail(t: MinutesTail) {
    IsBlank(t.lead) && IsNumeral(t.digits) && IsBlank(t.gap) && t.unit in MinuteSuffixes
  }

  /** `c` is a way pattern `p` can match the whole of `Spell(c)`. */
  predicate Wf(p: Pattern, c: Capture) {
    && WfAmount(c.amount, p.HoursPattern?)
    && IsBlank(c.gap)
    && c.letter == Letter(p)
    && c.unit in p.units
    && (c.minutes.Some? ==> p.HoursPattern? && p.allowsMinutes && WfTail(c.minutes.value))
  }

  /** Captures whose numerals can be evaluated. */
  predicate Evaluable(c: Capture) {
    WfAmount(c.amount, true) && (c.minutes.Some? ==> IsNumeral(c.minutes.value.digits))
  }

  // ---------------------------------------------------------------- matching

  /** The amount at the front of `s` and the text after it. */
  function MatchAmount(allowFraction: bool, s: string): (r: Option<(Amount, string)>)
    ensures r.Some? ==> SpellAmountThen(r.value.0, r.value.1) == s && WfAmount(r.value.0, allowFraction)
  {
    var (whole, s1) := SplitSpan(s, IsDigit);
    if whole == [] then None
    else if allowFraction && |s1| >= 2 && s1[0] == '.' && IsDigit(s1[1]) then
      var (fraction, rest) := SplitSpan(s1[1..], IsDigit);
      assert s1 == ['.'] + s1[1..];
      Some((Amount(whole, Some(fraction)), rest))
    else
      Some((Amount(whole, None), s1))
  }

  /** The minutes part of the first pattern, which must run to the end of `s`. */
  function MatchTail(s: string): (r: Option<MinutesTail>)
    ensures r.Some? ==> SpellTail(r.value) == s && WfTail(r.value)
  {
    var (lead, s1) := SplitSpan(s, IsSpace);
    var (digits, s2) := SplitSpan(s1, IsDigit);
    var (gap, s3) := SplitSpan(s2, IsSpace);
    if digits == [] || s3 == [] || s3[0] != 'm' || s3[1..] !in MinuteSuffixes then None
    else
      var t := MinutesTail(lead, digits, gap, s3[1..]);
      assert s3 == ['m'] + t.unit;
      SpellTailFromParts(t, s, s1, s2, s3);
      assert IsBlank(lead) && IsNumeral(digits) && IsBlank(gap);
      Some(t)
  }

  lemma SpellTailFromParts(t: MinutesTail, s: string, s1: string, s2: string, s3: string)
    requires t.lead + s1 == s && t.digits + s2 == s1 && t.gap + s3 == s2 && s3 == ['m'] + t.unit
    ensures SpellTail(t) == s
  {
  }

  /** What follows the unit letter: a unit word of `p`, then either the end of
      the text or (first pattern only) a minutes part. */
  function MatchUnit(p: Pattern, s: string): (r: Option<(string, Option<MinutesTail>)>)
    ensures r.Some? ==> r.value.0 + TailText(r.value.1) == s && r.value.0 in p.units
    ensures r.Some? && r.value.1.Some? ==> p.HoursPattern? && p.allowsMinutes && WfTail(r.value.1.value)
  {
    var (unit, rest) := SplitSpan(s, IsWordChar);
    if unit !in p.units then None
    else if rest == [] then Some((unit, None))
    else if p.HoursPattern? && p.allowsMinutes then
      match MatchTail(rest)
      case Some(t) => Some((unit, Some(t)))
      case None => None
    else None
  }

  /** Whether pattern `p` matches all of `s`, and with which capture. */
  function Match(p: Pattern, s: string): (r: Option<Capture>)
    ensures r.Some? ==> Spell(r.value) == s && Wf(p, r.value)
  {
    match MatchAmount(p.HoursPattern?, s)
    case None => None
    case Some((amount, s1)) =>
      var (gap, s2) := SplitSpan(s1, IsSpace);
      if s2 == [] || s2[0] != Letter(p) then None
      else
        match MatchUnit(p, s2[1..])
        case None => None
        case Some((unit, minutes)) =>
          var c := Capture(amount, gap, Letter(p), unit, minutes);
          assert s2 == [c.letter] + (c.unit + TailText(c.minutes));
          SpellFromParts(c, s, s1, s2);
          Some(c)
  }

  lemma SpellFromParts(c: Capture, s: string, s1: string, s2: string)
    requires SpellAmountThen(c.amount, s1) == s && c.gap + s2 == s1
    requires s2 == [c.letter] + (c.unit + TailText(c.minutes))
    ensures Spell(c) == s
  {
  }

  lemma MatchAmountComplete(allowFraction: bool, a: Amount, rest: string)
    requires WfAmount(a, allowFraction)
    requires rest == [] || (!IsDigit(rest[0]) && rest[0] != '.')
    ensures MatchAmount(allowFraction, SpellAmountThen(a, rest)) == Some((a, rest))
  {
    if a.fraction.Some? {
      var f := a.fraction.value;
      var s1 := ['.'] + (f + rest);
      SplitSpanOfConcat(a.whole, s1, IsDigit);
      assert s1[1..] == f + rest;
      SplitSpanOfConcat(f, rest, IsDigit);
    } else {
      SplitSpanOfConcat(a.whole, rest, IsDigit);
    }
  }

  lemma MatchTailComplete(t: MinutesTail)
    requires WfTail(t)
    ensures MatchTail(SpellTail(t)) == Some(t)
  {
    var s3 := ['m'] + t.unit;
    var s2 := t.gap + s3;
    var s1 := t.digits + s2;
    SplitSpanOfConcat(t.lead, s1, IsSpace);
    SplitSpanOfConcat(t.digits, s2, IsDigit);
    SplitSpanOfConcat(t.gap, s3, IsSpace);
    assert s3[1..] == t.unit;
  }

  /** A minutes part starts with a blank or a digit, never with a word character. */
  lemma TailStart(t: MinutesTail)
    requires WfTail(t)
    ensures SpellTail(t) != [] && !IsWordChar(SpellTail(t)[0])
  {
    if t.lead != [] {
      assert SpellTail(t)[0] == t.lead[0];
    } else {
      assert SpellTail(t)[0] == t.digits[0];
    }
  }

  lemma MatchUnitComplete(p: Pattern, unit: string, minutes: Option<MinutesTail>)
    requires PatternOk(p) && unit in p.units
    requires minutes.Some? ==> p.HoursPattern? && p.allowsMinutes && WfTail(minutes.value)
    ensures MatchUnit(p, unit + TailText(minutes)) == Some((unit, minutes))
  {
    assert forall i :: 0 <= i < |unit| ==> IsLowerLetter(unit[i]);
    if minutes.Some? {
      TailStart(minutes.value);
      MatchTailComplete(minutes.value);
    }
    SplitSpanOfConcat(unit, TailText(minutes), IsWordChar);
  }

  /** What follows an amount starts neither a numeral nor a fraction. */
  lemma AfterAmount(gap: string, letter: char, rest: string)
    requires IsBlank(gap) && (letter == 'h' || letter == 'm')
    ensures var s := gap + ([letter] + rest); s != [] && !IsDigit(s[0]) && s[0] != '.'
  {
    if gap != [] {
      assert (gap + ([letter] + rest))[0] == gap[0];
      assert IsSpace(gap[0]);
    }
  }

  /** Completeness: every well-formed capture is the one the matcher finds. */
  lemma MatchComplete(p: Pattern, c: Capture)
    requires PatternOk(p) && Wf(p, c)
    ensures Match(p, Spell(c)) == Some(c)
  {
    var s3 := c.unit + TailText(c.minutes);
    var s2 := [c.letter] + s3;
    var s1 := c.gap + s2;
    AfterAmount(c.gap, c.letter, s3);
    MatchAmountComplete(p.HoursPattern?, c.amount, s1);
    assert MatchAmount(p.HoursPattern?, Spell(c)) == Some((c.amount, s1));
    SplitSpanOfConcat(c.gap, s2, IsSpace);
    assert s2[1..] == s3;
    MatchUnitComplete(p, c.unit, c.minutes);
    MatchFromSteps(p, Spell(c), c.amount, s1, c.gap, s2, c.unit, c.minutes);
  }

  /** `Match` assembles the results of its steps. */
  lemma MatchFromSteps(p: Pattern, s: string, amount: Amount, s1: string, gap: string, s2: string,
                       unit: string, minutes: Option<MinutesTail>)
    requires MatchAmount(p.HoursPattern?, s) == Some((amount, s1))
    requires SplitSpan(s1, IsSpace) == (gap, s2)
    requires s2 != [] && s2[0] == Letter(p)
    requires MatchUnit(p, s2[1..]) == Some((unit, minutes))
    ensures Match(p, s) == Some(Capture(amount, gap, Letter(p), unit, minutes))
  {
  }

  // ---------------------------------------------------------------- evaluation

  /** How many digits follow the decimal point. */
  function Places(a: Amount): nat {
    if a.fraction.Some? then |a.fraction.value| else 0
  }

  /** The amount's digits with the point removed. */
  function Digits(a: Amount): (r: string)
    requires WfAmount(a, true)
    ensures IsNumeral(r) && |r| == |a.whole| + Places(a)
  {
    if a.fraction.Some? then a.whole + a.fraction.value else a.whole
  }

  /** The amount is exactly `Numerator(a) / 10^Places(a)`: the number
      `parseFloat` approximates. */
  function Numerator(a: Amount): nat
    requires WfAmount(a, true)
  {
    NumeralValue(Digits(a))
  }

  /** The numerator is the whole part scaled past the fraction, plus the fraction. */
  lemma NumeratorSplits(a: Amount)
    requires WfAmount(a, true)
    ensures Numerator(a) == NumeralValue(a.whole) * Pow10(Places(a))
                          + (if a.fraction.Some? then NumeralValue(a.fraction.value) else 0)
  {
    if a.fraction.Some? {
      NumeralValueConcat(a.whole, a.fraction.value);
    }
    ShiftIsProduct(NumeralValue(a.whole), Places(a));
  }

  /** The number of minutes a capture denotes: for `h`, the amount times 60
      plus the optional minutes, rounded half up; for `m`, the whole number. */
  function Value(c: Capture): nat
    requires Evaluable(c)
  {
    if c.letter == 'h' then
      var hours := 60 * Numerator(c.amount);
      var total := if c.minutes.Some? then hours + Shift(NumeralValue(c.minutes.value.digits), Places(c.amount)) else hours;
      RoundHalfUp(total, Pow10(Places(c.amount)))
    else
      NumeralValue(c.amount.whole)
  }

  /** A whole number of hours plus minutes needs no rounding. */
  lemma WholeHoursValue(c: Capture)
    requires Evaluable(c) && c.letter == 'h' && c.amount.fraction.None?
    ensures Value(c) == 60 * NumeralValue(c.amount.whole)
                        + (if c.minutes.Some? then NumeralValue(c.minutes.value.digits) else 0)
  {
    var mins := if c.minutes.Some? then NumeralValue(c.minutes.value.digits) else 0;
    assert Places(c.amount) == 0;
    RoundHalfUpByOne(60 * NumeralValue(c.amount.whole) + mins);
  }

  /** Index of the first pattern of `ps` that matches `t`, or `|ps|` when none does. */
  function FirstMatch(ps: seq<Pattern>, t: string): (i: nat)
    ensures i <= |ps|
    ensures forall j :: 0 <= j < i ==> Match(ps[j], t).None?
    ensures i < |ps| ==> Match(ps[i], t).Some?
  {
    FirstWhere(ps, p => Match(p, t).Some?, 0)
  }

  /** The first-match index is determined by which patterns match. */
  lemma FirstMatchUnique(ps: seq<Pattern>, t: string, i: nat)
    requires i <= |ps|
    requires forall j :: 0 <= j < i ==> Match(ps[j], t).None?
    requires i < |ps| ==> Match(ps[i], t).Some?
    ensures FirstMatch(ps, t) == i
  {
  }

  lemma WfEvaluable(p: Pattern, c: Capture)
    requires Wf(p, c)
    ensures Evaluable(c)
  {
  }

  /** Run the pattern table `ps` the way `parseTimeEstimate` does: empty input
      is rejected, the rest is lower-cased and trimmed, and the first matching
      pattern computes the result. */
  function ParseWith(ps: seq<Pattern>, input: string): (r: Option<int>)
    ensures input == [] ==> r.None?
    ensures r.Some? ==> r.value >= 0
  {
    if input == [] then None else FirstValue(ps, Normalize(input))
  }

  /** The value the first pattern of `ps` that matches `t` computes. */
  function FirstValue(ps: seq<Pattern>, t: string): (r: Option<int>)
    ensures r.None? <==> FirstMatch(ps, t) == |ps|
    ensures r.Some? ==> r.value >= 0
  {
    var i := FirstMatch(ps, t);
    if i == |ps| then None
    else
      WfEvaluable(ps[i], Match(ps[i], t).value);
      Some(Value(Match(ps[i], t).value))
  }

  /** `parseTimeEstimate`: minutes, or `None` for the empty string and for text
      no pattern accepts once lower-cased and trimmed. */
  function ParseTimeEstimate(input: string): (r: Option<int>)
    ensures input == [] ==> r.None?
    ensures r.Some? ==> r.value >= 0
  {
    ParseWith(Patterns, input)
  }

  /** Text is rejected exactly when it is empty or no pattern matches it
      once normalised. */
  lemma ParseWithRejects(ps: seq<Pattern>, input: string)
    ensures ParseWith(ps, input).None?
        <==> input == [] || forall j :: 0 <= j < |ps| ==> Match(ps[j], Normalize(input)).None?
  {
  }

  // ---------------------------------------------------------------- the table

  /** Whatever the third pattern accepts, the first accepts too, with the same capture. */
  lemma HoursWordSubsumed(t: string)
    requires Match(Patterns[2], t).Some?
    ensures Match(Patterns[0], t) == Match(Patterns[2], t)
  {
    var c := Match(Patterns[2], t).value;
    PatternsOk();
    assert Wf(Patterns[0], c);
    MatchComplete(Patterns[0], c);
  }

  /** Whatever the fourth pattern accepts, the second accepts too, with the same capture. */
  lemma MinutesWordSubsumed(t: string)
    requires Match(Patterns[3], t).Some?
    ensures Match(Patterns[1], t) == Match(Patterns[3], t)
  {
    var c := Match(Patterns[3], t).value;
    PatternsOk();
    assert Wf(Patterns[1], c);
    MatchComplete(Patterns[1], c);
  }

  /** The last two patterns never fire: the first match is always the first
      or the second pattern, or none at all. */
  lemma LaterPatternsNeverFire(t: string)
    ensures FirstMatch(Patterns, t) in {0, 1, |Patterns|}
  {
    var i := FirstMatch(Patterns, t);
    if i == 2 {
      HoursWordSubsumed(t);
      assert false;
    } else if i == 3 {
      MinutesWordSubsumed(t);
      assert false;
    }
  }

  /** Dropping the last two patterns changes no result. */
  lemma TwoPatternsSuffice(input: string)
    ensures ParseTimeEstimate(input) == ParseWith(Patterns[..2], input)
  {
    if input != [] {
      LaterPatternsNeverFire(Normalize(input));
      ParseWithPrefix(Patterns, 2, input);
    }
  }

  /** A table's tail can be cut off when no text reaches it. */
  lemma ParseWithPrefix(ps: seq<Pattern>, k: nat, input: string)
    requires k <= |ps| && input != []
    requires FirstMatch(ps, Normalize(input)) < k || FirstMatch(ps, Normalize(input)) == |ps|
    ensures ParseWith(ps, input) == ParseWith(ps[..k], input)
  {
    FirstValuePrefix(ps, k, Normalize(input));
  }

  lemma FirstValuePrefix(ps: seq<Pattern>, k: nat, t: string)
    requires k <= |ps|
    requires FirstMatch(ps, t) < k || FirstMatch(ps, t) == |ps|
    ensures FirstValue(ps, t) == FirstValue(ps[..k], t)
  {
    var i := FirstMatch(ps, t);
    var qs := ps[..k];
    var m := if i < k then i else k;
    forall j | 0 <= j < m
      ensures Match(qs[j], t).None?
    {
      assert qs[j] == ps[j];
    }
    if i < k {
      assert qs[i] == ps[i];
    }
    FirstMatchUnique(qs, t, m);
  }

  // ---------------------------------------------------------------- accepted forms

  lemma Assoc(a: string, b: string, c: string)
    ensures a + (b + c) == (a + b) + c
  {
  }

  predicate NoUpper(s: string) {
    forall i :: 0 <= i < |s| ==> !IsUpper(s[i])
  }

  predicate IsWord(s: string) {
    forall i :: 0 <= i < |s| ==> IsLowerLetter(s[i])
  }

  /** The last character of `s` is a lower-case letter. */
  predicate EndsInLetter(s: string) {
    s != [] && IsLowerLetter(s[|s| - 1])
  }

  lemma EndsInLetterConcat(a: string, b: string)
    requires EndsInLetter(b)
    ensures EndsInLetter(a + b)
  {
    assert (a + b)[|a + b| - 1] == b[|b| - 1];
  }

  lemma WordAfterLetter(x: char, u: string)
    requires IsLowerLetter(x) && IsWord(u)
    ensures EndsInLetter([x] + u)
  {
    if u != [] {
      EndsInLetterConcat([x], u);
    }
  }

  lemma TailEndsInLetter(t: MinutesTail)
    requires WfTail(t)
    ensures EndsInLetter(SpellTail(t))
  {
    assert IsWord(t.unit);
    WordAfterLetter('m', t.unit);
    EndsInLetterConcat(t.gap, ['m'] + t.unit);
    EndsInLetterConcat(t.digits, t.gap + (['m'] + t.unit));
    EndsInLetterConcat(t.lead, t.digits + (t.gap + (['m'] + t.unit)));
  }

  lemma SpellEndsInLetter(p: Pattern, c: Capture)
    requires PatternOk(p) && Wf(p, c)
    ensures EndsInLetter(c.gap + ([c.letter] + (c.unit + TailText(c.minutes))))
  {
    var tail := TailText(c.minutes);
    if c.minutes.Some? {
      TailEndsInLetter(c.minutes.value);
      EndsInLetterConcat(c.unit, tail);
      EndsInLetterConcat([c.letter], c.unit + tail);
    } else {
      assert c.unit + tail == c.unit;
      assert IsWord(c.unit);
      WordAfterLetter(c.letter, c.unit);
    }
    EndsInLetterConcat(c.gap, [c.letter] + (c.unit + tail));
  }

  lemma NoUpperConcat(a: string, b: string)
    requires NoUpper(a) && NoUpper(b)
    ensures NoUpper(a + b)
  {
  }

  lemma SpellNoUpper(p: Pattern, c: Capture)
    requires PatternOk(p) && Wf(p, c)
    ensures NoUpper(Spell(c))
  {
    var tail := TailText(c.minutes);
    if c.minutes.Some? {
      var t := c.minutes.value;
      assert IsWord(t.unit);
      NoUpperConcat(['m'], t.unit);
      NoUpperConcat(t.gap, ['m'] + t.unit);
      NoUpperConcat(t.digits, t.gap + (['m'] + t.unit));
      NoUpperConcat(t.lead, t.digits + (t.gap + (['m'] + t.unit)));
    }
    assert IsWord(c.unit);
    NoUpperConcat(c.unit, tail);
    NoUpperConcat([c.letter], c.unit + tail);
    var rest := c.gap + ([c.letter] + (c.unit + tail));
    NoUpperConcat(c.gap, [c.letter] + (c.unit + tail));
    if c.amount.fraction.Some? {
      NoUpperConcat(c.amount.fraction.value, rest);
      NoUpperConcat(['.'], c.amount.fraction.value + rest);
      NoUpperConcat(c.amount.whole, ['.'] + (c.amount.fraction.value + rest));
    } else {
      NoUpperConcat(c.amount.whole, rest);
    }
  }

  /** The text of a capture is already lower-case and trimmed. */
  lemma SpellCanonical(p: Pattern, c: Capture)
    requires PatternOk(p) && Wf(p, c)
    ensures Normalize(Spell(c)) == Spell(c)
  {
    var rest := c.gap + ([c.letter] + (c.unit + TailText(c.minutes)));
    SpellEndsInLetter(p, c);
    var s := Spell(c);
    if c.amount.fraction.Some? {
      EndsInLetterConcat(c.amount.fraction.value, rest);
      EndsInLetterConcat(['.'], c.amount.fraction.value + rest);
      EndsInLetterConcat(c.amount.whole, ['.'] + (c.amount.fraction.value + rest));
    } else {
      EndsInLetterConcat(c.amount.whole, rest);
    }
    assert s[0] == c.amount.whole[0];
    SpellNoUpper(p, c);
    NormalizeCanonical(s);
  }

  /** The unit letter of a capture occurs in its text. */
  lemma LetterOccurs(c: Capture)
    ensures c.letter in Spell(c)
  {
    var rest := c.gap + ([c.letter] + (c.unit + TailText(c.minutes)));
    assert c.letter in rest;
    if c.amount.fraction.Some? {
      assert rest <= c.amount.fraction.value + rest || c.letter in c.amount.fraction.value + rest;
    }
  }

  /** A pattern only matches text containing its unit letter. */
  lemma MatchNeedsLetter(p: Pattern, t: string)
    ensures Match(p, t).Some? ==> Letter(p) in t
  {
    if Match(p, t).Some? {
      LetterOccurs(Match(p, t).value);
    }
  }

  /** A pattern only matches text that starts with a digit. */
  lemma MatchNeedsDigit(p: Pattern, t: string)
    ensures Match(p, t).Some? ==> t != [] && IsDigit(t[0])
  {
    if Match(p, t).Some? {
      var c := Match(p, t).value;
      assert t[0] == c.amount.whole[0];
    }
  }

  /** A capture of the second pattern contains no `h`. */
  lemma MinutesTextHasNoH(c: Capture)
    requires Wf(Patterns[1], c)
    ensures 'h' !in Spell(c)
  {
    assert c.unit in MinuteSuffixes;
    assert 'h' !in c.unit;
    assert forall i :: 0 <= i < |c.gap| ==> c.gap[i] != 'h';
    assert forall i :: 0 <= i < |c.amount.whole| ==> c.amount.whole[i] != 'h';
  }

  /** How `ParseTimeEstimate` concludes once the first matching pattern is known. */
  lemma ParseAt(t: string, k: nat, c: Capture)
    requires t != [] && Normalize(t) == t && k < |Patterns|
    requires FirstMatch(Patterns, t) == k && Match(Patterns[k], t) == Some(c)
    ensures ParseTimeEstimate(t) == Some(Value(c))
  {
  }

  /** Text spelled by a capture of the first pattern parses to that capture's value. */
  lemma ParseHoursText(c: Capture, x: string)
    requires Wf(Patterns[0], c) && Spell(c) == x
    ensures ParseTimeEstimate(x) == Some(Value(c))
  {
    PatternsOk();
    SpellCanonical(Patterns[0], c);
    MatchComplete(Patterns[0], c);
    FirstMatchUnique(Patterns, x, 0);
    ParseAt(x, 0, c);
  }

  /** Text spelled by a capture of the second pattern parses to that capture's value. */
  lemma ParseMinutesText(c: Capture, x: string)
    requires Wf(Patterns[1], c) && Spell(c) == x
    ensures ParseTimeEstimate(x) == Some(Value(c))
  {
    PatternsOk();
    SpellCanonical(Patterns[1], c);
    MatchComplete(Patterns[1], c);
    MatchNeedsLetter(Patterns[0], x);
    MinutesTextHasNoH(c);
    assert Match(Patterns[0], x).None?;
    forall j | 0 <= j < 1
      ensures Match(Patterns[j], x).None?
    {
      assert j == 0;
    }
    FirstMatchUnique(Patterns, x, 1);
    ParseAt(x, 1, c);
  }

  /** The capture behind `<H>h <M>m`. */
  function HoursAndMinutes(hs: string, ms: string): Capture {
    Capture(Amount(hs, None), "", 'h', "", Some(MinutesTail(" ", ms, "", "")))
  }

  lemma SpellHoursAndMinutes(hs: string, ms: string)
    ensures Spell(HoursAndMinutes(hs, ms)) == hs + "h " + ms + "m"
  {
    var tail := " " + (ms + "m");
    assert SpellTail(MinutesTail(" ", ms, "", "")) == tail by {
      assert "" + (['m'] + "") == "m";
    }
    assert Spell(HoursAndMinutes(hs, ms)) == hs + ("h" + tail);
    Assoc(hs, "h", tail);
    Assoc("h", " ", ms + "m");
    Assoc(hs + "h", " ", ms + "m");
    Assoc(hs + "h ", ms, "m");
  }

  lemma HoursAndMinutesValue(hs: string, ms: string)
    requires IsNumeral(hs) && IsNumeral(ms)
    ensures Wf(Patterns[0], HoursAndMinutes(hs, ms))
    ensures Value(HoursAndMinutes(hs, ms)) == 60 * NumeralValue(hs) + NumeralValue(ms)
  {
    var c := HoursAndMinutes(hs, ms);
    assert IsBlank(" ") by {
      assert IsSpace(" "[0]);
    }
    assert WfTail(c.minutes.value);
    WholeHoursValue(c);
  }

  /** `<H>h <M>m` parses to H*60 + M, for any whole numbers H and M. */
  lemma ParseHoursAndMinutes(h: nat, m: nat)
    ensures ParseTimeEstimate(Show(h) + "h " + Show(m) + "m") == Some(60 * h + m)
  {
    var hs, ms := Show(h), Show(m);
    var c := HoursAndMinutes(hs, ms);
    SpellHoursAndMinutes(hs, ms);
    HoursAndMinutesValue(hs, ms);
    ParseHoursText(c, hs + "h " + ms + "m");
    assert NumeralValue(hs) == h && NumeralValue(ms) == m;
    assert Value(c) == 60 * h + m;
  }

  /** `<H>h` parses to H*60. */
  lemma ParseHours(h: nat)
    ensures ParseTimeEstimate(Show(h) + "h") == Some(60 * h)
  {
    var c := Capture(Amount(Show(h), None), "", 'h', "", None);
    assert Spell(c) == Show(h) + "h";
    WholeHoursValue(c);
    ParseHoursText(c, Show(h) + "h");
  }

  /** `<M>m`, `<M>min`, `<M> minutes` and the other minute words parse to M. */
  lemma ParseMinutes(m: nat, gap: string, unit: string)
    requires IsBlank(gap) && unit in MinuteSuffixes
    ensures ParseTimeEstimate(Show(m) + gap + "m" + unit) == Some(m)
  {
    var x := Show(m) + gap + "m" + unit;
    var c := Capture(Amount(Show(m), None), gap, 'm', unit, None);
    assert Spell(c) == Show(m) + (gap + ("m" + unit));
    Assoc(Show(m), gap, "m" + unit);
    Assoc(Show(m) + gap, "m", unit);
    ParseMinutesText(c, x);
  }

  /** `<M>m`, as the card writes an estimate under an hour. */
  lemma ParseShortMinutes(m: nat)
    ensures ParseTimeEstimate(Show(m) + "m") == Some(m)
  {
    var c := Capture(Amount(Show(m), None), "", 'm', "", None);
    assert Spell(c) == Show(m) + "m";
    ParseMinutesText(c, Show(m) + "m");
  }

  /** `<x> hours` with a decimal x parses to x*60 rounded half up. */
  lemma ParseDecimalHours(whole: string, fraction: string, gap: string, unit: string)
    requires IsNumeral(whole) && IsNumeral(fraction) && IsBlank(gap) && unit in {"our", "ours"}
    ensures ParseTimeEstimate(whole + "." + fraction + gap + "h" + unit)
         == Some(RoundHalfUp(60 * NumeralValue(whole + fraction), Pow10(|fraction|)))
  {
    var c := Capture(Amount(whole, Some(fraction)), gap, 'h', unit, None);
    assert Spell(c) == whole + ("." + (fraction + (gap + ("h" + unit))));
    Assoc(whole, ".", fraction + (gap + ("h" + unit)));
    Assoc(whole + ".", fraction, gap + ("h" + unit));
    Assoc(whole + "." + fraction, gap, "h" + unit);
    Assoc(whole + "." + fraction + gap, "h", unit);
    ParseHoursText(c, whole + "." + fraction + gap + "h" + unit);
  }

  /** Every accepted text starts with a digit once normalised; anything else is rejected. */
  lemma ParseNeedsLeadingDigit(input: string)
    requires Normalize(input) == [] || !IsDigit(Normalize(input)[0])
    ensures ParseTimeEstimate(input).None?
  {
    var t := Normalize(input);
    forall j | 0 <= j < |Patterns|
      ensures Match(Patterns[j], t).None?
    {
      MatchNeedsDigit(Patterns[j], t);
    }
    ParseWithRejects(Patterns, input);
  }

  /** Case and surrounding white space do not matter: text parses as its
      lower-cased, trimmed form does. */
  lemma ParseOfNormalized(input: string)
    ensures ParseTimeEstimate(input) == ParseTimeEstimate(Normalize(input))
  {
    NormalizeNil();
    if Normalize(input) == [] {
      ParseNeedsLeadingDigit(input);
    } else {
      NormalizeIdempotent(input);
    }
  }

  /** Two texts that differ only in case and surrounding white space parse alike. */
  lemma ParseIgnoresCaseAndPadding(x: string, y: string)
    requires Normalize(x) == Normalize(y)
    ensures ParseTimeEstimate(x) == ParseTimeEstimate(y)
  {
    ParseOfNormalized(x);
    ParseOfNormalized(y);
  }

  /** Any text that normalises to what a pattern of the table spells parses
      to that spelling's value, whatever its case and padding. */
  lemma ParseNormalizedSpelling(input: string, k: nat, c: Capture)
    requires k < |Patterns| && Wf(Patterns[k], c) && Normalize(input) == Spell(c)
    ensures ParseTimeEstimate(input) == Some(Value(c))
  {
    ParseOfNormalized(input);
    if k == 0 || k == 2 {
      assert Wf(Patterns[0], c);
      ParseHoursText(c, Spell(c));
    } else {
      assert Wf(Patterns[1], c);
      ParseMinutesText(c, Spell(c));
    }
  }

  /** `formatTimeEstimate`: nothing for absent, zero or negative minutes;
      otherwise hours and minutes, leaving out a zero part. */
  function FormatTimeEstimate(minutes: Option<int>): (r: string)
    ensures r == [] <==> minutes.None? || minutes.value <= 0
  {
    if minutes.None? || minutes.value <= 0 then ""
    else
      var hours := minutes.value / 60;
      var rest := minutes.value % 60;
      if hours == 0 then Show(rest) + "m"
      else if rest == 0 then Show(hours) + "h"
      else Show(hours) + "h " + Show(rest) + "m"
  }

  /** Round trip: every positive estimate the card displays parses back to itself. */
  lemma FormatParseRoundTrip(n: int)
    requires n > 0
    ensures ParseTimeEstimate(FormatTimeEstimate(Some(n))) == Some(n)
  {
    var h := n / 60;
    var m := n % 60;
    assert n == 60 * h + m;
    if h == 0 {
      assert FormatTimeEstimate(Some(n)) == Show(m) + "m";
      ParseShortMinutes(m);
      assert m == n;
    } else if m == 0 {
      assert FormatTimeEstimate(Some(n)) == Show(h) + "h";
      ParseHours(h);
      assert 60 * h == n;
    } else {
      assert FormatTimeEstimate(Some(n)) == Show(h) + "h " + Show(m) + "m";
      ParseHoursAndMinutes(h, m);
    }
  }

  /** The displayed estimate parses back however it is re-typed in case and
      padding. */
  lemma ParseDisplayedAnyCase(input: string, n: int)
    requires n > 0 && Normalize(input) == FormatTimeEstimate(Some(n))
    ensures ParseTimeEstimate(input) == Some(n)
  {
    ParseOfNormalized(input);
    FormatParseRoundTrip(n);
  }
}
