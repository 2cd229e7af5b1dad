/** The favourite card's two pieces of logic (src/components/kanban/FavoriteTaskCard.tsx):
    the badge label of each priority, and `extractEmoji`, which splits a
    leading run of emoji off a title.

    A title is a sequence of code points. The Unicode `Emoji` property is a
    parameter `isEmoji`; `EmojiTable` pins down the part of it that matters
    here: among ASCII characters exactly the digits, `#` and `*` carry it,
    and no white-space character does. */
module FavoriteCard {
  import opened Wrappers
  import opened Text
  import opened TaskTypes

  // ---------------------------------------------------------------- priorityConfig

  /** `priorityConfig[priority].label`. */
  function PriorityLabel(p: Priority): (name: string)
    ensures name != []
  {
    match p
    case High => "Urgent"
    case Medium => "Work"
    case Low => "Personal"
  }

  /** Which priority a badge label stands for. */
  function PriorityOfLabel(name: string): (r: Option<Priority>)
    ensures r.Some? ==> PriorityLabel(r.value) == name
  {
    if name == "Urgent" then Some(High)
    else if name == "Work" then Some(Medium)
    else if name == "Personal" then Some(Low)
    else None
  }

  /** The table is total and its labels are distinct: each priority's label
      reads back as that priority. */
  lemma PriorityLabelRoundTrip(p: Priority)
    ensures PriorityOfLabel(PriorityLabel(p)) == Some(p)
  {
  }

  lemma PriorityLabelInjective(p: Priority, q: Priority)
    ensures PriorityLabel(p) == PriorityLabel(q) <==> p == q
  {
    PriorityLabelRoundTrip(p);
    PriorityLabelRoundTrip(q);
  }

  // ---------------------------------------------------------------- extractEmoji

  /** U+200D ZERO WIDTH JOINER, which glues emoji into one picture. */
  const Zwj: char := '\U{200D}'

  predicate IsAscii(c: char) {
    c < '\U{0080}'
  }

  /** What the code relies on about the `Emoji` property. */
  ghost predicate EmojiTable(isEmoji: char -> bool) {
    && (forall c :: IsAscii(c) ==> (isEmoji(c) <==> IsDigit(c) || c == '#' || c == '*'))
    && (forall c :: IsSpace(c) ==> !isEmoji(c))
    && !IsSpace(Zwj)
  }

  /** What `extractEmoji` returns: the emoji run, or `None` for `null`, and the
      rest of the title. */
  datatype Split = Split(emoji: Option<string>, cleanTitle: string)

  /** The regex `^(R+)\s*` applied to `title`, where `inRun` is the class `R`.
      Both quantifiers are greedy and `\s*` also matches nothing, so the first
      match takes the longest run and then all the white space after it. */
  function SplitLeading(title: string, inRun: char -> bool): (r: Split)
    ensures r.emoji.None? <==> title == [] || !inRun(title[0])
    ensures r.emoji.None? ==> r.cleanTitle == title
    ensures r.emoji.Some? ==>
      var e := r.emoji.value;
      && e != []
      && |e| + |r.cleanTitle| <= |title|
      && title == e + (title[|e|..|title| - |r.cleanTitle|] + r.cleanTitle)
      && (forall i :: 0 <= i < |e| ==> inRun(e[i]))
      && (|e| < |title| ==> !inRun(title[|e|]))
      && IsBlank(title[|e|..|title| - |r.cleanTitle|])
      && (r.cleanTitle == [] || !IsSpace(r.cleanTitle[0]))
  {
    var (run, rest) := SplitSpan(title, inRun);
    if run == [] then Split(None, title)
    else
      var (gap, clean) := SplitSpan(rest, IsSpace);
      SplitLeadingParts(title, inRun, run, rest, gap, clean);
      Split(Some(run), clean)
  }

  /** The layout of `title` once it is cut into run, gap and rest. */
  lemma SplitLeadingParts(title: string, inRun: char -> bool, run: string, rest: string, gap: string, clean: string)
    requires run + rest == title && gap + clean == rest && run != []
    requires (forall i :: 0 <= i < |run| ==> inRun(run[i])) && (rest == [] || !inRun(rest[0]))
    requires IsBlank(gap) && (clean == [] || !IsSpace(clean[0]))
    ensures && |run| + |clean| <= |title|
            && title == run + (title[|run|..|title| - |clean|] + clean)
            && (|run| < |title| ==> !inRun(title[|run|]))
            && IsBlank(title[|run|..|title| - |clean|])
  {
    assert title == run + (gap + clean);
    assert title[|run|..|title| - |clean|] == gap;
  }

  /** A title cut by hand into a run, white space and a rest is cut the same
      way by `SplitLeading`, provided the run cannot be extended: either the
      white space is absent and the rest does not start inside the class, or
      the white space ends the run. */
  lemma SplitLeadingOfParts(run: string, gap: string, clean: string, inRun: char -> bool)
    requires run != [] && forall i :: 0 <= i < |run| ==> inRun(run[i])
    requires IsBlank(gap) && forall c :: IsSpace(c) ==> !inRun(c)
    requires clean == [] || !IsSpace(clean[0])
    requires gap == [] ==> clean == [] || !inRun(clean[0])
    ensures SplitLeading(run + (gap + clean), inRun) == Split(Some(run), clean)
  {
    assert gap != [] ==> !inRun(gap[0]);
    SplitSpanOfConcat(run, gap + clean, inRun);
    SplitSpanOfConcat(gap, clean, IsSpace);
  }

  /** A code point `extractEmoji` gathers: emoji or the joiner. */
  function EmojiOrJoiner(isEmoji: char -> bool): char -> bool {
    c => isEmoji(c) || c == Zwj
  }

  /** `extractEmoji(title)` as written: the regex `^([\p{Emoji}\u200d]+)\s*`
      in Unicode mode, with the property as the parameter `isEmoji`. */
  function ExtractEmoji(title: string, isEmoji: char -> bool): (r: Split)
    ensures r.emoji.None? <==> title == [] || !(isEmoji(title[0]) || title[0] == Zwj)
    ensures r.emoji.Some? ==> forall i :: 0 <= i < |r.emoji.value| ==> isEmoji(r.emoji.value[i]) || r.emoji.value[i] == Zwj
  {
    SplitLeading(title, EmojiOrJoiner(isEmoji))
  }

  /** The card shows the emoji and then the clean title: together with the
      white space between them they are the whole title again. */
  lemma ExtractEmojiDecomposes(title: string, isEmoji: char -> bool)
    requires ExtractEmoji(title, isEmoji).emoji.Some?
    ensures var r := ExtractEmoji(title, isEmoji);
      exists gap :: IsBlank(gap) && title == r.emoji.value + (gap + r.cleanTitle)
  {
    SplitLeadingDecomposes(title, EmojiOrJoiner(isEmoji));
  }

  lemma SplitLeadingDecomposes(title: string, inRun: char -> bool)
    requires SplitLeading(title, inRun).emoji.Some?
    ensures var r := SplitLeading(title, inRun);
      exists gap :: IsBlank(gap) && title == r.emoji.value + (gap + r.cleanTitle)
  {
    var r := SplitLeading(title, inRun);
    var gap := title[|r.emoji.value|..|title| - |r.cleanTitle|];
    assert IsBlank(gap);
  }

  /** Every emoji title splits the way it was written. */
  lemma ExtractEmojiOfParts(emoji: string, gap: string, clean: string, isEmoji: char -> bool)
    requires EmojiTable(isEmoji)
    requires emoji != [] && forall i :: 0 <= i < |emoji| ==> isEmoji(emoji[i]) || emoji[i] == Zwj
    requires IsBlank(gap) && (clean == [] || !IsSpace(clean[0]))
    requires gap == [] ==> clean == [] || !(isEmoji(clean[0]) || clean[0] == Zwj)
    ensures ExtractEmoji(emoji + (gap + clean), isEmoji) == Split(Some(emoji), clean)
  {
    SplitLeadingOfParts(emoji, gap, clean, EmojiOrJoiner(isEmoji));
  }

  /** Digits carry the `Emoji` property, so a title that starts with a
      number loses it to the emoji slot: "2024 plan" shows "2024" as its
      emoji and "plan" as its title. */
  lemma NumberTitleAsWritten(isEmoji: char -> bool)
    requires EmojiTable(isEmoji)
    ensures ExtractEmoji("2024 plan", isEmoji) == Split(Some("2024"), "plan")
  {
    assert "2024 plan" == "2024" + (" " + "plan");
    ExtractEmojiOfParts("2024", " ", "plan", isEmoji);
  }

  /** A corrected `extractEmoji` that leaves ASCII text alone: only non-ASCII
      emoji and the joiner start or continue the run. */
  function ExtractPictographs(title: string, isEmoji: char -> bool): (r: Split)
    ensures r.emoji.None? <==> title == [] || !((isEmoji(title[0]) && !IsAscii(title[0])) || title[0] == Zwj)
    ensures r.emoji.Some? ==> forall i :: 0 <= i < |r.emoji.value| ==> !IsAscii(r.emoji.value[i])
  {
    SplitLeading(title, Pictograph(isEmoji))
  }

  /** A code point the corrected split gathers. */
  function Pictograph(isEmoji: char -> bool): char -> bool {
    c => (isEmoji(c) && !IsAscii(c)) || c == Zwj
  }

  /** A title that starts with an ASCII character keeps all of its text. */
  lemma PictographsKeepAsciiTitles(title: string, isEmoji: char -> bool)
    requires title != [] && IsAscii(title[0])
    ensures ExtractPictographs(title, isEmoji) == Split(None, title)
  {
  }

  /** ... and a genuine leading emoji is still split off as before. */
  lemma PictographsAgreeOffAscii(title: string, isEmoji: char -> bool)
    requires forall i :: 0 <= i < |title| && IsAscii(title[i]) ==> !isEmoji(title[i])
    ensures ExtractPictographs(title, isEmoji) == ExtractEmoji(title, isEmoji)
  {
    SplitSpanAgree(title, EmojiOrJoiner(isEmoji), Pictograph(isEmoji));
  }

  /** Where the number title goes under the correction. */
  lemma NumberTitleCorrected(isEmoji: char -> bool)
    ensures ExtractPictographs("2024 plan", isEmoji) == Split(None, "2024 plan")
  {
    PictographsKeepAsciiTitles("2024 plan", isEmoji);
  }
}
