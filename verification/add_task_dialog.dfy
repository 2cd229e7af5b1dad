/** The add-task form (src/components/kanban/AddTaskDialog.tsx): its fields,
    the tag editor, and what a submit hands to `createTask`. Every handler
    is a pure function from one form state to the next. */
module AddTaskDialog {
  import opened Wrappers
  import opened Text
  import opened Seqs
  import opened TaskTypes
  import opened TimeEstimate

  /** The form's state hooks. `dueDate` is what the date input holds: empty
      or a `yyyy-MM-dd` day. */
  datatype Form = Form(
    title: string,
    description: string,
    priority: Priority,
    dueDate: string,
    timeEstimate: string,
    tagInput: string,
    tags: seq<string>)

  /** The initial state, which a successful submit also restores. */
  const EmptyForm := Form("", "", Medium, "", "", "", [])

  // ---------------------------------------------------------------- tags

  /** The tag list keeps no duplicates and only trimmed, non-empty tags. */
  predicate TagsValid(tags: seq<string>) {
    && (forall i, j :: 0 <= i < j < |tags| ==> tags[i] != tags[j])
    && (forall i :: 0 <= i < |tags| ==> tags[i] != [] && Trim(tags[i]) == tags[i])
  }

  /** `addTag`: the trimmed input is appended, and the input cleared, only when
      it is non-empty and not already a tag; otherwise nothing happens. */
  function AddTag(f: Form): (r: Form)
    ensures |r.tags| == |f.tags| || |r.tags| == |f.tags| + 1
    ensures r.tags[..|f.tags|] == f.tags
    ensures |r.tags| == |f.tags| + 1 <==> Trim(f.tagInput) != [] && Trim(f.tagInput) !in f.tags
    ensures |r.tags| == |f.tags| + 1 ==> r.tags[|f.tags|] == Trim(f.tagInput) && r.tagInput == []
    ensures |r.tags| == |f.tags| + 1 ==> r.(tags := f.tags, tagInput := f.tagInput) == f
    ensures |r.tags| == |f.tags| ==> r == f
  {
    var tag := Trim(f.tagInput);
    if tag != [] && tag !in f.tags then
      var r := f.(tags := f.tags + [tag], tagInput := "");
      assert r.tags[..|f.tags|] == f.tags;
      r
    else f
  }

  /** `removeTag(tag)`: `tags.filter((t) => t !== tag)`. */
  function RemoveTag(f: Form, tag: string): (r: Form)
    ensures tag !in r.tags
    ensures forall i :: 0 <= i < |f.tags| && f.tags[i] != tag ==> f.tags[i] in r.tags
    ensures forall i :: 0 <= i < |r.tags| ==> r.tags[i] in f.tags
    ensures r.(tags := f.tags) == f
  {
    f.(tags := Filter(f.tags, (t: string) => t != tag))
  }

  /** The other tags keep their order. */
  lemma RemoveTagKeepsOrder(f: Form, tag: string)
    ensures IsSubsequence(RemoveTag(f, tag).tags, f.tags)
  {
    FilterIsSubsequence(f.tags, (t: string) => t != tag);
  }

  /** Removing a tag the list does not hold changes nothing. */
  lemma RemoveAbsentTag(f: Form, tag: string)
    requires tag !in f.tags
    ensures RemoveTag(f, tag) == f
  {
    FilterKeepsAll(f.tags, (t: string) => t != tag);
  }

  lemma AddTagKeepsTagsValid(f: Form)
    requires TagsValid(f.tags)
    ensures TagsValid(AddTag(f).tags)
  {
    var tag := Trim(f.tagInput);
    if tag != [] && tag !in f.tags {
      TrimIdempotent(f.tagInput);
      AppendKeepsTagsValid(f.tags, tag);
    }
  }

  lemma AppendKeepsTagsValid(tags: seq<string>, tag: string)
    requires TagsValid(tags) && tag != [] && Trim(tag) == tag && tag !in tags
    ensures TagsValid(tags + [tag])
  {
    var r := tags + [tag];
    forall i, j | 0 <= i < j < |r|
      ensures r[i] != r[j]
    {
      if j == |tags| {
        assert r[i] == tags[i];
      }
    }
  }

  /** Filtering keeps the tag list valid: a kept tag is one of the old ones. */
  lemma {:induction false} FilterKeepsTagsValid(tags: seq<string>, tag: string)
    requires TagsValid(tags)
    ensures TagsValid(Filter(tags, (t: string) => t != tag))
  {
    if tags != [] {
      FilterKeepsTagsValid(tags[1..], tag);
      var rest := Filter(tags[1..], (t: string) => t != tag);
      if tags[0] != tag {
        assert tags[0] !in tags[1..];
        assert tags[0] !in rest;
      }
    }
  }

  // ---------------------------------------------------------------- submit

  /** What a submit does: nothing when the title is blank; otherwise the
      shaped input goes to `onSubmit`, the form resets, and the dialog
      closes. */
  datatype SubmitOutcome = Ignored | Submitted(input: CreateTaskInput, form: Form, closeDialog: bool)

  /** `parsedTime || undefined`: no estimate when parsing fails or gives 0. */
  function SubmittedEstimate(text: string): (r: Option<int>)
    ensures r.Some? ==> r.value > 0 && ParseTimeEstimate(text) == r
    ensures r.None? <==> ParseTimeEstimate(text).None? || ParseTimeEstimate(text) == Some(0)
  {
    match ParseTimeEstimate(text)
    case Some(n) => if n == 0 then None else Some(n)
    case None => None
  }

  /** `x || undefined` for a string. */
  function NonEmpty(s: string): (r: Option<string>)
    ensures r.None? <==> s == []
    ensures r.Some? ==> r.value == s
  {
    if s == [] then None else Some(s)
  }

  /** `handleSubmit` with the dialog's `defaultStatus`. */
  function Submit(f: Form, defaultStatus: Status): (r: SubmitOutcome)
    ensures r.Ignored? <==> IsBlank(f.title)
    ensures r.Submitted? ==> r.form == EmptyForm && r.closeDialog
    ensures r.Submitted? ==>
      && r.input.title == Trim(f.title)
      && r.input.description == NonEmpty(Trim(f.description))
      && r.input.priority == Some(f.priority)
      && r.input.status == Some(defaultStatus)
      && r.input.dueDate == NonEmpty(f.dueDate)
      && r.input.timeEstimate == SubmittedEstimate(f.timeEstimate)
      && r.input.tags == Some(f.tags)
  {
    var title := Trim(f.title);
    if title == [] then Ignored
    else
      var input := CreateTaskInput(title, NonEmpty(Trim(f.description)), Some(f.priority),
                                   Some(defaultStatus), NonEmpty(f.dueDate),
                                   SubmittedEstimate(f.timeEstimate), Some(f.tags));
      Submitted(input, EmptyForm, true)
  }

  /** The submitted title and description carry no white space at either
      end, and the title is never empty. */
  lemma SubmitTrims(f: Form, defaultStatus: Status)
    requires Submit(f, defaultStatus).Submitted?
    ensures var i := Submit(f, defaultStatus).input;
      && i.title != [] && Trim(i.title) == i.title
      && (i.description.Some? ==> i.description.value != [] && Trim(i.description.value) == i.description.value)
  {
    TrimIdempotent(f.title);
    TrimIdempotent(f.description);
  }

  /** A reset form cannot be submitted again: its title is empty. */
  lemma SubmitResetIgnored(f: Form, s: Status, s': Status)
    requires Submit(f, s).Submitted?
    ensures Submit(Submit(f, s).form, s') == Ignored
  {
  }

  /** An estimate typed the way cards display it is submitted as that many
      minutes. */
  lemma SubmitDisplayedEstimate(f: Form, s: Status, n: int)
    requires !IsBlank(f.title) && n > 0
    requires f.timeEstimate == FormatTimeEstimate(Some(n))
    ensures Submit(f, s).input.timeEstimate == Some(n)
  {
    FormatParseRoundTrip(n);
  }

  // ---------------------------------------------------------------- the form over time

  /** What the user can do to the form. */
  datatype Event =
    | EditTitle(title: string)
    | EditDescription(description: string)
    | ChoosePriority(priority: Priority)
    | EditDueDate(dueDate: string)
    | EditTimeEstimate(timeEstimate: string)
    | EditTagInput(tagInput: string)
    | PressAddTag
    | PressRemoveTag(tag: string)
    | PressSubmit(defaultStatus: Status)

  function Step(f: Form, e: Event): Form {
    match e
    case EditTitle(s) => f.(title := s)
    case EditDescription(s) => f.(description := s)
    case ChoosePriority(p) => f.(priority := p)
    case EditDueDate(s) => f.(dueDate := s)
    case EditTimeEstimate(s) => f.(timeEstimate := s)
    case EditTagInput(s) => f.(tagInput := s)
    case PressAddTag => AddTag(f)
    case PressRemoveTag(t) => RemoveTag(f, t)
    case PressSubmit(s) =>
      match Submit(f, s)
      case Ignored => f
      case Submitted(_, reset, _) => reset
  }

  function Run(f: Form, events: seq<Event>): Form
    decreases |events|
  {
    if events == [] then f else Run(Step(f, events[0]), events[1..])
  }

  lemma StepKeepsTagsValid(f: Form, e: Event)
    requires TagsValid(f.tags)
    ensures TagsValid(Step(f, e).tags)
  {
    match e
    case PressAddTag => AddTagKeepsTagsValid(f);
    case PressRemoveTag(t) => FilterKeepsTagsValid(f.tags, t);
    case _ =>
  }

  /** Starting from the empty form, whatever the user does, the tag list
      never holds a duplicate or an empty tag. */
  lemma {:induction false} TagsAlwaysValid(f: Form, events: seq<Event>)
    requires TagsValid(f.tags)
    ensures TagsValid(Run(f, events).tags)
    decreases |events|
  {
    if events != [] {
      StepKeepsTagsValid(f, events[0]);
      TagsAlwaysValid(Step(f, events[0]), events[1..]);
    }
  }

  lemma TagsValidFromEmpty(events: seq<Event>)
    ensures TagsValid(Run(EmptyForm, events).tags)
  {
    TagsAlwaysValid(EmptyForm, events);
  }
}
