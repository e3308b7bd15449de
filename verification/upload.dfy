/** The upload form: a draft of title, description, AI notes and chosen file, with per-field
    error messages, an upload flag and a progress percentage. Every handler is a pure
    transition of the draft; transport outcomes (progress notifications, success, failure,
    the AI response) arrive as explicit events. */
module UploadForm {
  import opened Wrappers
  import Words

  const TITLE_WORD_LIMIT: nat := 15
  const DESCRIPTION_WORD_LIMIT: nat := 100
  const NO_FILE_CHOSEN := "No file chosen"
  const TITLE_REQUIRED := "Video title is required."
  const DESCRIPTION_REQUIRED := "Video description is required."
  const FILE_REQUIRED := "Please upload a video file."

  datatype Field = TitleField | DescriptionField | FileField

  /** A file picked in the browser; only its name matters to the form. */
  datatype ChosenFile = ChosenFile(name: string)

  /** The displayed progress: `Math.round` of a ratio, which is not a finite number when the
      transport reports a total of zero. */
  datatype Progress = Percent(value: int) | NotFinite

  datatype Draft = Draft(
    file: Option<ChosenFile>,
    fileName: string,
    title: string,
    description: string,
    aiContext: string,
    aiGenerating: bool,
    errors: map<Field, string>,
    uploading: bool,
    progress: Progress)

  const Initial := Draft(None, NO_FILE_CHOSEN, "", "", "", false, map[], false, Percent(0))

  /** The word limits the field editors enforce. */
  predicate WithinLimits(d: Draft) {
    Words.CountWords(d.title) <= TITLE_WORD_LIMIT
    && Words.CountWords(d.description) <= DESCRIPTION_WORD_LIMIT
  }

  /** Clearing a field's error on edit: a present, non-empty message for `f` becomes empty;
      every other entry stays. */
  function ClearError(errors: map<Field, string>, f: Field): (r: map<Field, string>)
    ensures r.Keys == errors.Keys
    ensures f in r ==> r[f] == ""
    ensures forall g :: g in errors && g != f ==> r[g] == errors[g]
  {
    if f in errors && errors[f] != "" then errors[f := ""] else errors
  }

  /** `handleTitleChange` */
  function EditTitle(d: Draft, val: string): Draft {
    if Words.CountWords(val) <= TITLE_WORD_LIMIT then
      d.(title := val, errors := ClearError(d.errors, TitleField))
    else d
  }

  /** `handleDescriptionChange` */
  function EditDescription(d: Draft, val: string): Draft {
    if Words.CountWords(val) <= DESCRIPTION_WORD_LIMIT then
      d.(description := val, errors := ClearError(d.errors, DescriptionField))
    else d
  }

  /** The AI notes input stores whatever is typed. */
  function EditAiContext(d: Draft, val: string): Draft {
    d.(aiContext := val)
  }

  /** `handleFileChange`: a cancelled picker (no file) changes nothing. */
  function ChooseFile(d: Draft, selected: Option<ChosenFile>): Draft {
    match selected
    case None => d
    case Some(f) => d.(file := Some(f), fileName := f.name, errors := ClearError(d.errors, FileField))
  }

  /** `!s.trim()`: the text is empty once surrounding whitespace is removed. */
  predicate Blank(s: string) {
    Words.Trim(s) == []
  }

  /** The checks at the start of `handleUpload`, one message per missing field. */
  function Validate(d: Draft): (errs: map<Field, string>)
    ensures TitleField in errs <==> Words.AllSpace(d.title)
    ensures DescriptionField in errs <==> Words.AllSpace(d.description)
    ensures FileField in errs <==> d.file.None?
    ensures errs == map[] <==> !Words.AllSpace(d.title) && !Words.AllSpace(d.description) && d.file.Some?
  {
    var e1: map<Field, string> := if Blank(d.title) then map[TitleField := TITLE_REQUIRED] else map[];
    var e2 := if Blank(d.description) then e1[DescriptionField := DESCRIPTION_REQUIRED] else e1;
    var e3 := if d.file.None? then e2[FileField := FILE_REQUIRED] else e2;
    assert TitleField in e3 ==> TitleField in e1;
    e3
  }

  /** The multipart body of the upload request. */
  datatype Payload = Payload(title: string, description: string, file: ChosenFile)

  datatype Submission = Submission(draft: Draft, request: Option<Payload>)

  /** `handleUpload` up to the request: blocked with the new error map when a field is missing,
      otherwise the draft is marked uploading and one request carries the three fields. */
  function Submit(d: Draft): (s: Submission)
    ensures s.request.Some? <==> Validate(d) == map[]
    ensures s.request.None? ==> s.draft == d.(errors := Validate(d))
    ensures s.request.Some? ==>
      s.request.value == Payload(d.title, d.description, d.file.value) && s.draft == d.(uploading := true)
  {
    var errs := Validate(d);
    if |errs| > 0 then Submission(d.(errors := errs), None)
    else Submission(d.(uploading := true), Some(Payload(d.title, d.description, d.file.value)))
  }

  /** `Math.round` of the share loaded, in percent: the nearest whole percentage, halves
      rounded up. */
  function RoundedPercent(loaded: nat, total: nat): (p: Progress)
    ensures total == 0 <==> p.NotFinite?
    ensures total > 0 ==>
      2 * p.value * total - total <= 200 * loaded < 2 * p.value * total + total
  {
    if total == 0 then NotFinite else Percent((200 * loaded + total) / (2 * total))
  }

  /** The progress callback. */
  function UploadProgress(d: Draft, loaded: nat, total: nat): Draft {
    d.(progress := RoundedPercent(loaded, total))
  }

  /** `resetForm` */
  function ResetForm(d: Draft): (r: Draft)
    ensures r == Initial.(aiGenerating := d.aiGenerating, uploading := d.uploading)
  {
    d.(title := "", description := "", aiContext := "", file := None, fileName := NO_FILE_CHOSEN,
       errors := map[], progress := Percent(0))
  }

  /** The end of `handleUpload`: success resets the form, failure keeps it; either way the
      upload flag drops. */
  function UploadFinished(d: Draft, succeeded: bool): Draft {
    var r := if succeeded then ResetForm(d) else d;
    r.(uploading := false)
  }

  /** What the AI endpoint returned, already decoded: each field may be missing. */
  datatype AiMetadata = AiMetadata(title: Option<string>, description: Option<string>)

  /** `handleAiGenerate` up to the request: blank notes issue nothing and change nothing;
      otherwise the notes are sent as the transcript and the form is marked busy. */
  function AiGenerate(d: Draft): (s: (Draft, Option<string>))
    ensures s.1.None? <==> Words.AllSpace(d.aiContext)
    ensures s.1.None? ==> s.0 == d
    ensures s.1.Some? ==> s.1.value == d.aiContext && s.0 == d.(aiGenerating := true)
  {
    if Blank(d.aiContext) then (d, None) else (d.(aiGenerating := true), Some(d.aiContext))
  }

  /** `data.title || ""`: a missing or empty value becomes the empty string. */
  function OrEmpty(s: Option<string>): string {
    s.GetOr("")
  }

  /** The end of `handleAiGenerate`: on success title and description are overwritten with the
      returned values, bypassing the word limits; on failure nothing but the busy flag changes. */
  function AiFinished(d: Draft, response: Option<AiMetadata>): Draft {
    match response
    case None => d.(aiGenerating := false)
    case Some(m) => d.(title := OrEmpty(m.title), description := OrEmpty(m.description), aiGenerating := false)
  }
}
