/** What the upload form guarantees: edits respect the word limits and touch only their own
    field, validation reports exactly the missing fields and gates the request, the progress
    percentage is a monotone nearest-integer reading in 0..100, success restores the initial
    draft while failure keeps it, and the AI prefill writes past the word limits. */
module UploadProperties {
  import opened Wrappers
  import Words
  import opened UploadForm

  datatype Event =
    | TitleInput(val: string)
    | DescriptionInput(val: string)
    | AiContextInput(val: string)
    | FilePicked(selected: Option<ChosenFile>)
    | UploadClicked
    | UploadProgressed(loaded: nat, total: nat)
    | UploadDone(succeeded: bool)
    | AiClicked
    | AiDone(response: Option<AiMetadata>)

  function Step(d: Draft, ev: Event): Draft {
    match ev
    case TitleInput(val) => EditTitle(d, val)
    case DescriptionInput(val) => EditDescription(d, val)
    case AiContextInput(val) => EditAiContext(d, val)
    case FilePicked(selected) => ChooseFile(d, selected)
    case UploadClicked => Submit(d).draft
    case UploadProgressed(loaded, total) => UploadProgress(d, loaded, total)
    case UploadDone(succeeded) => UploadFinished(d, succeeded)
    case AiClicked => AiGenerate(d).0
    case AiDone(response) => AiFinished(d, response)
  }

  /** A title edit is stored exactly when it has at most 15 words, and then only the title and
      the title's error entry change; a longer one leaves the draft as it was. */
  lemma TitleEditWithinLimit(d: Draft, val: string)
    ensures Words.CountWords(val) <= TITLE_WORD_LIMIT ==>
      && EditTitle(d, val).title == val
      && EditTitle(d, val) == d.(title := val, errors := EditTitle(d, val).errors)
    ensures Words.CountWords(val) > TITLE_WORD_LIMIT ==> EditTitle(d, val) == d
    ensures Words.CountWords(EditTitle(d, val).title) <= TITLE_WORD_LIMIT
         || EditTitle(d, val).title == d.title
  {
  }

  /** The same for the description, with a limit of 100 words. */
  lemma DescriptionEditWithinLimit(d: Draft, val: string)
    ensures Words.CountWords(val) <= DESCRIPTION_WORD_LIMIT ==>
      && EditDescription(d, val).description == val
      && EditDescription(d, val) == d.(description := val, errors := EditDescription(d, val).errors)
    ensures Words.CountWords(val) > DESCRIPTION_WORD_LIMIT ==> EditDescription(d, val) == d
  {
  }

  /** An accepted edit or file choice clears that field's error message and leaves every other
      entry of the error map as it was. */
  lemma AcceptedEditClearsOnlyItsError(d: Draft, val: string, f: ChosenFile)
    ensures Words.CountWords(val) <= TITLE_WORD_LIMIT ==>
      ErrorsClearedOnly(d.errors, EditTitle(d, val).errors, TitleField)
    ensures Words.CountWords(val) <= DESCRIPTION_WORD_LIMIT ==>
      ErrorsClearedOnly(d.errors, EditDescription(d, val).errors, DescriptionField)
    ensures ErrorsClearedOnly(d.errors, ChooseFile(d, Some(f)).errors, FileField)
  {
  }

  predicate ErrorsClearedOnly(before: map<Field, string>, after: map<Field, string>, f: Field) {
    && after.Keys == before.Keys
    && (f in after ==> after[f] == "")
    && forall g :: g in before && g != f ==> after[g] == before[g]
  }

  /** A cancelled file picker leaves the draft as it was; a picked file is stored and its name
      displayed, and nothing but the file, its name and the errors changes. */
  lemma FilePickKeepsOrStores(d: Draft, selected: Option<ChosenFile>)
    ensures selected.None? ==> ChooseFile(d, selected) == d
    ensures selected.Some? ==>
      ChooseFile(d, selected).file == selected && ChooseFile(d, selected).fileName == selected.value.name
    ensures selected.Some? ==>
      ChooseFile(d, selected)
        == d.(file := selected, fileName := selected.value.name, errors := ChooseFile(d, selected).errors)
  {
  }

  /** The word limits hold after every event except a successful AI prefill. */
  lemma StepKeepsLimits(d: Draft, ev: Event)
    requires WithinLimits(d)
    requires !(ev.AiDone? && ev.response.Some?)
    ensures WithinLimits(Step(d, ev))
  {
    if ev.TitleInput? {
      TitleStepKeepsLimits(d, ev);
    } else if ev.DescriptionInput? {
      DescriptionStepKeepsLimits(d, ev);
    } else if ev.UploadDone? {
      UploadDoneStepKeepsLimits(d, ev);
    } else {
      OtherStepKeepsLimits(d, ev);
    }
  }

  lemma TitleStepKeepsLimits(d: Draft, ev: Event)
    requires WithinLimits(d) && ev.TitleInput?
    ensures WithinLimits(Step(d, ev))
  {
    TitleEditKeepsLimits(d, ev.val);
    assert Step(d, ev) == EditTitle(d, ev.val);
  }

  lemma DescriptionStepKeepsLimits(d: Draft, ev: Event)
    requires WithinLimits(d) && ev.DescriptionInput?
    ensures WithinLimits(Step(d, ev))
  {
    DescriptionEditKeepsLimits(d, ev.val);
    assert Step(d, ev) == EditDescription(d, ev.val);
  }

  lemma UploadDoneStepKeepsLimits(d: Draft, ev: Event)
    requires WithinLimits(d) && ev.UploadDone?
    ensures WithinLimits(Step(d, ev))
  {
    var w := Step(d, ev);
    if ev.succeeded {
      assert w.title == "" && w.description == "";
      EmptyTextHasNoWords();
    } else {
      assert w == d.(uploading := false);
    }
  }

  lemma OtherStepKeepsLimits(d: Draft, ev: Event)
    requires WithinLimits(d)
    requires !ev.TitleInput? && !ev.DescriptionInput? && !ev.UploadDone?
    requires !(ev.AiDone? && ev.response.Some?)
    ensures WithinLimits(Step(d, ev))
  {
    OtherStepKeepsText(d, ev);
    SameTextKeepsLimits(d, Step(d, ev));
  }

  /** Only the two editors, the end of an upload and a successful AI prefill write the title
      or the description. */
  lemma OtherStepKeepsText(d: Draft, ev: Event)
    requires !ev.TitleInput? && !ev.DescriptionInput? && !ev.UploadDone?
    requires !(ev.AiDone? && ev.response.Some?)
    ensures Step(d, ev).title == d.title && Step(d, ev).description == d.description
  {
  }

  lemma TitleEditKeepsLimits(d: Draft, val: string)
    requires WithinLimits(d)
    ensures WithinLimits(EditTitle(d, val))
  {
  }

  lemma DescriptionEditKeepsLimits(d: Draft, val: string)
    requires WithinLimits(d)
    ensures WithinLimits(EditDescription(d, val))
  {
  }

  lemma SameTextKeepsLimits(d: Draft, e: Draft)
    requires WithinLimits(d) && e.title == d.title && e.description == d.description
    ensures WithinLimits(e)
  {
  }

  lemma EmptyTextHasNoWords()
    ensures Words.CountWords("") == 0
  {
    Words.CountWordsZeroIffBlank("");
  }

  /** The AI prefill bypasses the limit: a title the editor would reject is stored as returned. */
  lemma AiPrefillBypassesLimit(d: Draft, t: string, desc: Option<string>)
    requires Words.CountWords(t) > TITLE_WORD_LIMIT
    ensures EditTitle(d, t).title == d.title
    ensures AiFinished(d, Some(AiMetadata(Some(t), desc))).title == t
    ensures !WithinLimits(AiFinished(d, Some(AiMetadata(Some(t), desc))))
  {
  }

  /** The prefill overwrites both fields, a missing value becoming empty; a failed call
      changes nothing but the busy flag. */
  lemma AiPrefillOverwrites(d: Draft, m: AiMetadata)
    ensures var r := AiFinished(d, Some(m));
            && r.title == (if m.title.Some? then m.title.value else "")
            && r.description == (if m.description.Some? then m.description.value else "")
            && r == d.(title := r.title, description := r.description, aiGenerating := false)
    ensures AiFinished(d, None) == d.(aiGenerating := false)
  {
  }

  /** Blank notes issue no request and change no field. */
  lemma BlankAiContextIsIgnored(d: Draft)
    requires Words.AllSpace(d.aiContext)
    ensures AiGenerate(d) == (d, None)
  {
  }

  /** Upload is requested exactly when title and description have a non-whitespace character
      and a file is chosen; a blocked click reports exactly the missing fields, with their
      messages. */
  lemma SubmitGate(d: Draft)
    ensures Submit(d).request.Some? <==>
      !Words.AllSpace(d.title) && !Words.AllSpace(d.description) && d.file.Some?
    ensures Submit(d).request.None? ==>
      var errs := Submit(d).draft.errors;
      && (TitleField in errs <==> Words.AllSpace(d.title))
      && (DescriptionField in errs <==> Words.AllSpace(d.description))
      && (FileField in errs <==> d.file.None?)
      && (TitleField in errs ==> errs[TitleField] == TITLE_REQUIRED)
      && (DescriptionField in errs ==> errs[DescriptionField] == DESCRIPTION_REQUIRED)
      && (FileField in errs ==> errs[FileField] == FILE_REQUIRED)
  {
  }

  /** For a transfer in progress the percentage lies in 0..100, starts at 0 and ends at 100. */
  lemma ProgressBounds(loaded: nat, total: nat)
    requires 0 < total && loaded <= total
    ensures 0 <= RoundedPercent(loaded, total).value <= 100
    ensures loaded == 0 ==> RoundedPercent(loaded, total) == Percent(0)
    ensures loaded == total ==> RoundedPercent(loaded, total) == Percent(100)
  {
    var p := RoundedPercent(loaded, total).value;
    PercentNotNegative(loaded, total, p);
    PercentAtMostFull(loaded, total, p);
    if loaded == 0 {
      PercentZeroAtStart(total, p);
    }
    if loaded == total {
      PercentFullAtEnd(total, p);
    }
  }

  lemma PercentNotNegative(loaded: nat, total: nat, p: int)
    requires 0 < total && 200 * loaded < 2 * p * total + total
    ensures 0 <= p
  {
    if p < 0 {
      MulMonotone(p, -1, total);
    }
  }

  lemma PercentAtMostFull(loaded: nat, total: nat, p: int)
    requires 0 < total && loaded <= total && 2 * p * total - total <= 200 * loaded
    ensures p <= 100
  {
    if p > 100 {
      MulMonotone(101, p, total);
    }
  }

  lemma PercentZeroAtStart(total: nat, p: int)
    requires 0 < total && 2 * p * total - total <= 0 && 0 <= p
    ensures p == 0
  {
    if p > 0 {
      MulMonotone(1, p, total);
    }
  }

  lemma PercentFullAtEnd(total: nat, p: int)
    requires 0 < total && 200 * total < 2 * p * total + total && p <= 100
    ensures p == 100
  {
    if p < 100 {
      MulMonotone(p, 99, total);
    }
  }

  lemma MulMonotone(a: int, b: int, t: nat)
    requires a <= b
    ensures a * t <= b * t
  {
  }

  /** More bytes sent never shows a smaller percentage. */
  lemma ProgressMonotone(l1: nat, l2: nat, total: nat)
    requires 0 < total && l1 <= l2
    ensures RoundedPercent(l1, total).value <= RoundedPercent(l2, total).value
  {
    var p1, p2 := RoundedPercent(l1, total).value, RoundedPercent(l2, total).value;
    if p1 > p2 {
      MulMonotone(p2 + 1, p1, total);
    }
  }

  /** Rounding, not truncation: 199 of 200 bytes already reads 100%. */
  lemma ProgressRoundsUp()
    ensures RoundedPercent(199, 200) == Percent(100)
  {
  }

  /** A successful upload restores the initial draft (the AI busy flag aside); a failed one
      keeps everything the user entered. Both end the upload. */
  lemma UploadOutcome(d: Draft)
    ensures UploadFinished(d, true) == Initial.(aiGenerating := d.aiGenerating)
    ensures UploadFinished(d, false) == d.(uploading := false)
  {
  }

  /** Picking a file, typing a non-blank title and description within their word limits,
      then uploading: one request carries the three values, the last progress notification
      reads 100%, and success restores the initial draft. */
  lemma UploadScenario(f: ChosenFile, title: string, description: string, total: nat)
    requires total > 0
    requires Words.CountWords(title) <= TITLE_WORD_LIMIT
    requires Words.CountWords(description) <= DESCRIPTION_WORD_LIMIT
    requires !Words.AllSpace(title) && !Words.AllSpace(description)
    ensures var d := EditDescription(EditTitle(ChooseFile(Initial, Some(f)), title), description);
            var s := Submit(d);
            && s.request == Some(Payload(title, description, f))
            && UploadProgress(s.draft, total, total).progress == Percent(100)
            && UploadFinished(UploadProgress(s.draft, total, total), true) == Initial
  {
    var d := EditDescription(EditTitle(ChooseFile(Initial, Some(f)), title), description);
    assert d == Initial.(file := Some(f), fileName := f.name, title := title, description := description);
    SubmitGate(d);
    ProgressBounds(total, total);
  }
}
