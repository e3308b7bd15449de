# Video streaming web app: player, upload form and byte-range server in Dafny

This project models three pieces of a small video-streaming web application:

- **The quality controller of the video player.** It creates one media engine per mounted
  view and reuses it across source changes. It keeps a list of rendition heights, with no
  height twice and sorted from highest to lowest, as the engine announces renditions. Its
  selector either pins playback to one height or hands the choice back to the engine
  ("Auto"). The model is a state machine over the view and the engines it created.
- **The upload form's draft.** Titles are limited to 15 words and descriptions to 100. The
  form reports the fields missing when the user clicks upload. It shows progress as a
  percentage rounded to the nearest whole number. A successful upload clears the form and a
  failed one keeps it. The AI prefill overwrites the title and description.
- **The server's byte-range fallback endpoint and HLS file endpoint.** The byte-range endpoint
  reads the start of the `Range` header, computes the chunk's end and length in Java `long`
  arithmetic, and writes the `Content-Range` header. The HLS endpoint chooses a media type
  from the file name's suffix.

## Files and modules

- `wrappers.dfy`, module `Wrappers`: the `Option` type.
- `text.dfy`, module `Text`:
  - decimal spelling of integers, as JavaScript's `toString` and Java's `Long.toString`
    write them;
  - `EndsWith` and `StartsWith`;
  - first-occurrence search.
- `javalang.dfy`, module `JavaLang`:
  - `long` and `int` wrap-around;
  - `String.replace(target, "")`;
  - `Long.parseLong`.
- `words.dfy`, module `Words`:
  - JavaScript `trim()` and `split(/\s+/)` over the ECMAScript whitespace set;
  - the form's `countWords`, proved equal to an independent count of word starts.
- `quality.dfy`, module `QualityLevels`:
  - the UI list of heights;
  - the fake engine;
  - the view;
  - the events, as React and the engine deliver them.
- `quality_props.dfy`, module `QualityProperties`: the invariant every reachable view keeps,
  and lifecycle and selection properties.
- `upload.dfy`, module `UploadForm`: the draft and every handler of the form.
- `upload_props.dfy`, module `UploadProperties`: the event-level properties of the form.
- `byterange.dfy`, module `ByteRange`:
  - `streamVideoRange` as written;
  - a corrected version that checks the start;
  - the `Content-Range` writer with a reader for it.
- `content_types.dfy`, module `ContentTypes`: `serveHlsFile`, checked against a last-dot
  extension table.

## Behaviour worth knowing

- **Upload progress is rounded to the nearest whole number, not floored.** The code uses
  `Math.round(loaded * 100 / total)`.
  - `RoundedPercent` models this as the nearest whole number, with halves rounded up.
  - `ProgressRoundsUp` shows 199 of 200 bytes reading 100%.
- **A manual quality selection can enable more than one rendition, or none.** The code
  compares each rendition's height, spelled in decimal, with the selected value. It enables
  every rendition that matches:
  - when the engine lists a height twice, both renditions are enabled;
  - when nothing matches, every rendition is disabled.

  `SelectHeight`, `SelectHeightCount`, `DuplicateHeightsBothEnabled` and
  `SelectUnmatchedDisablesAll` state this.
- **"Auto" is not always what the engine plays.** A selection puts the engine's renditions in
  step with the recorded choice, and every later event keeps them in step except two:
  - a rendition of another height announced while a height is pinned arrives enabled;
  - the reset queued by a source change records "Auto" but re-enables nothing. When the new
    renditions are announced and a height is pinned before that reset runs, the selector
    shows "Auto" while the other renditions stay disabled.

  `SelectionAppliedStep` and `RunSelectionApplied` prove the pattern outside these two cases;
  `AutoShownOverPinnedRendition` exhibits the second. Both need user or engine activity to
  fall inside a short window, so they are recorded here as behaviour of the code and not as
  defects.

## Model

| member | source | states |
|---|---|---|
| Words.CountWordsIsWordStarts | frontend/src/components/VideoUpload.jsx:24-26 | `countWords` (trim, split on whitespace runs, drop empty pieces, count) equals the number of places where a non-whitespace character follows whitespace or the start of the text |
| Words.CountWordsZeroIffBlank | frontend/src/components/VideoUpload.jsx:24-26 | a text has zero words exactly when it consists only of whitespace |
| Words.Trim | frontend/src/components/VideoUpload.jsx:25 | the trimmed text is a contiguous part of the text with only whitespace before and after it; it neither starts nor ends with whitespace, and it is empty exactly when the text is all whitespace |
| Words.SplitOnSpaceRuns | frontend/src/components/VideoUpload.jsx:25 | the split always yields at least one piece and no piece contains whitespace |
| Words.CountWords | frontend/src/components/VideoUpload.jsx:24-26 | no contract of its own: `Words.CountWordsIsWordStarts` equates it with an independent count of word starts, and `Words.CountWordsZeroIffBlank` says it is zero exactly for all-whitespace text |
| UploadProperties.TitleEditWithinLimit | frontend/src/components/VideoUpload.jsx:42-48 | a title of at most 15 words is stored, changing only the title and its error entry; a longer one leaves the whole draft unchanged |
| UploadProperties.DescriptionEditWithinLimit | frontend/src/components/VideoUpload.jsx:50-56 | the same for the description, with a limit of 100 words |
| UploadForm.ClearError | frontend/src/components/VideoUpload.jsx:46 | the map keeps the same keys; the field's message, if it has one, is empty afterwards; every other entry is kept |
| UploadProperties.AcceptedEditClearsOnlyItsError | frontend/src/components/VideoUpload.jsx:42-65 | an accepted title edit, description edit or file choice keeps the same set of error keys, empties its own field's message and keeps every other message |
| UploadProperties.FilePickKeepsOrStores | frontend/src/components/VideoUpload.jsx:58-65 | a cancelled picker changes nothing; a picked file is stored and its name is displayed, and nothing but the file, its name and the errors changes |
| UploadProperties.StepKeepsLimits | frontend/src/components/VideoUpload.jsx:42-142 | every event except a successful AI prefill keeps the title within 15 words and the description within 100 |
| UploadProperties.OtherStepKeepsText | frontend/src/components/VideoUpload.jsx:58-142 | the AI notes input, the file picker, the upload click, progress notifications and the AI request do not touch the title or the description |
| UploadForm.Validate | frontend/src/components/VideoUpload.jsx:101-104 | a field has an error entry exactly when it is missing: a title or description of only whitespace, or no file; the map is empty exactly when all three are present |
| UploadForm.Submit | frontend/src/components/VideoUpload.jsx:100-115 | a request is made exactly when validation finds nothing, and it carries the draft's title, description and file, with the form marked uploading; otherwise the errors are replaced by the validation result and nothing else changes |
| UploadProperties.SubmitGate | frontend/src/components/VideoUpload.jsx:101-109 | upload is requested exactly when title and description contain a non-whitespace character and a file is chosen; a blocked click reports each missing field with its message, and only those fields |
| UploadForm.RoundedPercent | frontend/src/components/VideoUpload.jsx:123-127 | with a known total, the percentage is the whole number nearest to loaded*100/total, halves rounded up; an unknown (zero) total gives a non-finite reading |
| UploadProperties.ProgressBounds | frontend/src/components/VideoUpload.jsx:123-127 | during a transfer the percentage lies in 0..100, reads 0 before any byte is sent and 100 when all are sent |
| UploadProperties.ProgressMonotone | frontend/src/components/VideoUpload.jsx:123-127 | more bytes sent never shows a smaller percentage |
| UploadProperties.ProgressRoundsUp | frontend/src/components/VideoUpload.jsx:124-126 | 199 of 200 bytes already reads 100% |
| UploadForm.ResetForm | frontend/src/components/VideoUpload.jsx:28-39 | after a reset the draft equals the initial draft, except for the two busy flags |
| UploadProperties.UploadOutcome | frontend/src/components/VideoUpload.jsx:132-141 | success restores the initial draft except the AI busy flag; failure keeps everything the user entered; both end the upload |
| UploadProperties.UploadScenario | frontend/src/components/VideoUpload.jsx:42-141 | choosing a file and typing a non-blank title of at most 15 words and a non-blank description of at most 100 words lets the upload through with those three values; a completed transfer reads 100%; success restores the initial draft |
| UploadForm.AiGenerate | frontend/src/components/VideoUpload.jsx:72-82 | the request is issued exactly when the notes contain a non-whitespace character; it carries the notes verbatim as the transcript and marks the form busy, changing nothing else; blank notes leave the draft unchanged |
| UploadProperties.BlankAiContextIsIgnored | frontend/src/components/VideoUpload.jsx:73-76 | notes of only whitespace issue no request and change nothing |
| UploadProperties.AiPrefillOverwrites | frontend/src/components/VideoUpload.jsx:85-96 | a successful prefill overwrites title and description, a missing value becoming empty, and changes nothing else but the busy flag; a failed call changes only the busy flag |
| UploadProperties.AiPrefillBypassesLimit | frontend/src/components/VideoUpload.jsx:87-88 | a title the editor would refuse for length is stored by the prefill, leaving the draft outside the word limits |
| UploadForm.EditTitle | frontend/src/components/VideoUpload.jsx:42-48 | no contract of its own: `UploadProperties.TitleEditWithinLimit` says an edit of at most 15 words is stored with only its error entry changed and a longer one changes nothing |
| UploadForm.EditDescription | frontend/src/components/VideoUpload.jsx:50-56 | no contract of its own: `UploadProperties.DescriptionEditWithinLimit` says the same with the limit of 100 words |
| UploadForm.ChooseFile | frontend/src/components/VideoUpload.jsx:58-65 | no contract of its own: `UploadProperties.FilePickKeepsOrStores` and `UploadProperties.AcceptedEditClearsOnlyItsError` give its whole effect |
| UploadForm.EditAiContext | frontend/src/components/VideoUpload.jsx:164-165 | no contract of its own: the notes are stored as typed with no limit and no error handling; `UploadProperties.OtherStepKeepsText` and `UploadProperties.StepKeepsLimits` say the edit leaves title, description and the limits alone |
| UploadForm.UploadProgress | frontend/src/components/VideoUpload.jsx:123-127 | no contract of its own: the displayed progress becomes `UploadForm.RoundedPercent` of the report, bounded and monotone by `UploadProperties.ProgressBounds` and `UploadProperties.ProgressMonotone` |
| UploadForm.UploadFinished | frontend/src/components/VideoUpload.jsx:132-141 | no contract of its own: `UploadProperties.UploadOutcome` says success resets the form, failure keeps the draft, and both clear the upload flag |
| UploadForm.AiFinished | frontend/src/components/VideoUpload.jsx:85-96 | no contract of its own: `UploadProperties.AiPrefillOverwrites` gives its whole effect for both outcomes, and `UploadProperties.AiPrefillBypassesLimit` shows it skips the word limits |
| QualityLevels.AddLevel | frontend/src/components/VideoPlayer.jsx:44-48 | a height already listed leaves the list unchanged; a new one yields a descending list holding the old heights plus the new one |
| QualityLevels.SortDescending | frontend/src/components/VideoPlayer.jsx:47 | the sort yields a descending permutation of its input, strictly descending when the heights are distinct |
| QualityLevels.DescendingPermutationUnique | frontend/src/components/VideoPlayer.jsx:47 | two descending lists holding the same heights are equal, so the result does not depend on the browser's sort algorithm |
| QualityLevels.AddLevelInsertsInPlace | frontend/src/components/VideoPlayer.jsx:44-48 | on a sorted list, appending and re-sorting is the same as inserting the new height at its rank |
| QualityLevels.AddLevelKeepsStrictOrder | frontend/src/components/VideoPlayer.jsx:44-48 | every announcement keeps the list strictly descending, with no height twice; its heights are the old ones plus the announced one |
| QualityLevels.DiscoveryExample | frontend/src/components/VideoPlayer.jsx:44-48 | announcing 720, 1080, 720 and 360 lists [1080, 720, 360] |
| QualityLevels.ApplySelection | frontend/src/components/VideoPlayer.jsx:84-95 | the loop keeps every rendition and its height; "Auto" enables all of them; any other value enables exactly those whose height, spelled in decimal, equals the value |
| QualityLevels.SelectHeightEnablesMatching | frontend/src/components/VideoPlayer.jsx:89-95 | selecting a height spelled as the selector spells it enables exactly the renditions of that height |
| QualityLevels.SelectHeightCount | frontend/src/components/VideoPlayer.jsx:89-95 | the number of renditions left enabled equals the number of renditions of the selected height |
| QualityLevels.SelectUnmatchedDisablesAll | frontend/src/components/VideoPlayer.jsx:89-95 | a value that spells no rendition's height leaves every rendition disabled |
| QualityLevels.DuplicateHeightsBothEnabled | frontend/src/components/VideoPlayer.jsx:91-94 | two renditions of one height are both enabled by selecting that height |
| QualityLevels.SelectorOptions | frontend/src/components/VideoPlayer.jsx:113-117 | the options are "Auto" followed by one value per listed height, in list order, each the height in decimal |
| QualityLevels.SelectorOptionsDistinct | frontend/src/components/VideoPlayer.jsx:106-118 | with heights listed once, no two options of the selector share a value |
| QualityLevels.SelectorOptionSelects | frontend/src/components/VideoPlayer.jsx:84-95 | choosing the "Auto" option enables every rendition of the engine; choosing the option of a listed height enables exactly the renditions of that height |
| QualityLevels.Step | frontend/src/components/VideoPlayer.jsx:14-96 | no contract of its own: `QualityProperties.StepInv` and `QualityProperties.SelectionAppliedStep` state what every event preserves; the per-event lemmas below pin each case |
| QualityLevels.SrcEffect | frontend/src/components/VideoPlayer.jsx:14-61 | no contract of its own: `QualityProperties.MountThenReady`, `QualityProperties.RemountCreatesFreshEngine`, `QualityProperties.ChangeSrcReusesEngine` and `QualityProperties.NoMountNodeNoEngine` cover its three branches |
| QualityLevels.FireReady | frontend/src/components/VideoPlayer.jsx:37-59 | no contract of its own: `QualityProperties.MountThenReady` (the listener is registered), `QualityProperties.ResetOnReadyAfterChange` (the reset empties the list and selects "Auto") and `QualityProperties.StaleEventsDropped` |
| QualityLevels.LevelAdded | frontend/src/components/VideoPlayer.jsx:41-48 | no contract of its own: `QualityProperties.LevelAddedUpdatesList` and `QualityProperties.DiscoveryScenario` |
| QualityLevels.Select | frontend/src/components/VideoPlayer.jsx:75-95 | no contract of its own: `QualityProperties.SelectAutoEnablesAll`, `QualityProperties.SelectHeight` and `QualityProperties.SelectWithoutPlayer` give its whole effect |
| QualityLevels.Cleanup | frontend/src/components/VideoPlayer.jsx:64-72 | no contract of its own: `QualityProperties.UnmountReleasesAll` and `QualityProperties.CleanupIdempotent` |
| QualityLevels.SelectorVisible | frontend/src/components/VideoPlayer.jsx:106 | the selector is rendered exactly when some height is listed; used by `QualityProperties.RemountCreatesFreshEngine`, `QualityProperties.ResetOnReadyAfterChange` and `QualityProperties.LevelAddedUpdatesList` |
| QualityProperties.InitInv | frontend/src/components/VideoPlayer.jsx:7-12 | a fresh view satisfies the controller's invariant |
| QualityProperties.StepInv | frontend/src/components/VideoPlayer.jsx:14-96 | every event preserves the invariant: the list is strictly descending; no engine is disposed twice; any live engine is the player the view points at; that player is live and has exactly one discovery listener, registered or queued; the cleanup holds the current player while mounted; nothing is held after unmount |
| QualityProperties.RunInv | frontend/src/components/VideoPlayer.jsx:14-96 | every sequence of events from a view satisfying the invariant keeps it |
| QualityProperties.AtMostOneLiveEngine | frontend/src/components/VideoPlayer.jsx:17-34 | under the invariant, no two engines are alive at once |
| QualityProperties.RemountCreatesFreshEngine | frontend/src/components/VideoPlayer.jsx:11-50 | mounting after an unmount creates a fresh engine, keeps the disposed ones as they were, and the cleanup captures the new one; the new instance lists nothing and selects "Auto", so no selector shows |
| QualityProperties.MountThenReady | frontend/src/components/VideoPlayer.jsx:17-50 | a first mount creates exactly one engine with the given source, which listens for renditions once ready, with nothing listed yet |
| QualityProperties.ChangeSrcReusesEngine | frontend/src/components/VideoPlayer.jsx:52-60 | a source change with a live player creates no engine and adds no listener; it gives the engine the new source and queues the reset on its ready hook, leaving the list and selection untouched for now |
| QualityProperties.ResetOnReadyAfterChange | frontend/src/components/VideoPlayer.jsx:52-60 | once the engine is ready after a source change, the list is empty, the selection is "Auto" and the selector is hidden |
| QualityProperties.DiscoveryBeforeResetIsLost | frontend/src/components/VideoPlayer.jsx:41-59 | a rendition announced after a source change but before readiness is wiped from the list by the queued reset, though the engine keeps it |
| QualityProperties.UnmountReleasesAll | frontend/src/components/VideoPlayer.jsx:64-72 | unmounting leaves every engine the view created disposed exactly once, and no player held |
| QualityProperties.CleanupIdempotent | frontend/src/components/VideoPlayer.jsx:66-71 | running the cleanup twice is the same as running it once: a disposed player is not disposed again |
| QualityProperties.StaleEventsDropped | frontend/src/components/VideoPlayer.jsx:37-49 | after unmount, readiness and discovery events change nothing |
| QualityProperties.NoMountNodeNoEngine | frontend/src/components/VideoPlayer.jsx:15 | without a container element no engine is ever created and no player held |
| QualityProperties.LevelAddedUpdatesList | frontend/src/components/VideoPlayer.jsx:41-48 | an announcement reaches the list only once the listener is registered; the listed heights are then the old ones plus the new one, and the selector shows |
| QualityProperties.DiscoveryScenario | frontend/src/components/VideoPlayer.jsx:41-48 | on a listening view, announcements of 720, 1080, 720, 360 list [1080, 720, 360], while the engine keeps all four in announcement order |
| QualityProperties.SelectAutoEnablesAll | frontend/src/components/VideoPlayer.jsx:75-88 | selecting "Auto" records it and enables every rendition of the player's engine, keeping their heights; the list, the player, the other engines and everything else about the engine are unchanged |
| QualityProperties.SelectHeight | frontend/src/components/VideoPlayer.jsx:75-95 | selecting a height records it, enables exactly that height's renditions, keeps heights and list, and leaves as many enabled as the engine has renditions of that height; no other engine and nothing else about this one changes |
| QualityProperties.SelectionAppliedStep | frontend/src/components/VideoPlayer.jsx:37-95 | a selection puts the engine's renditions in step with the recorded choice ("Auto": all enabled; a height: exactly its renditions), and every other event keeps them in step, except a rendition of another height announced while a height is pinned, and the queued reset running while a rendition is disabled |
| QualityProperties.RunSelectionApplied | frontend/src/components/VideoPlayer.jsx:37-95 | over any sequence of events in which neither exception occurs, the renditions stay in step with the choice |
| QualityProperties.AutoShownOverPinnedRendition | frontend/src/components/VideoPlayer.jsx:52-59 | after a source change, announcing two heights and pinning one before readiness ends with "Auto" recorded while the other rendition stays disabled |
| QualityProperties.SelectWithoutPlayer | frontend/src/components/VideoPlayer.jsx:75-80 | without a player, the choice is recorded and nothing else changes |
| ByteRange.ContentTypeOrDefault | Backend/src/main/java/com/stream/app/controllers/VideoController.java:77-79 | a missing stored content type is served as `application/octet-stream`; a stored one is served as is |
| ByteRange.ParseRangeStart | Backend/src/main/java/com/stream/app/controllers/VideoController.java:90-91 | a start that parses lies between 0 and the largest `long`; `ByteRange.RangeStartOfHeader`, `ByteRange.RangeEndIgnored`, `ByteRange.SuffixRangeFails` and `ByteRange.NonNumericStartFails` characterize which headers parse |
| JavaLang.RemoveAll | Backend/src/main/java/com/stream/app/controllers/VideoController.java:90 | deleting every occurrence never lengthens the text and introduces no character; `JavaLang.RemoveAllSplits` and `JavaLang.RemoveAllAbsent` say where occurrences can be |
| JavaLang.ParseLong | Backend/src/main/java/com/stream/app/controllers/VideoController.java:91 | a successful parse yields a `long` from text that ends in a digit; `JavaLang.ParseLongOfToString` says every `long` written in decimal reads back |
| JavaLang.WrapLong | Backend/src/main/java/com/stream/app/controllers/VideoController.java:92 | the result is a `long` congruent to the exact value modulo 2^64, and equal to it when it fits |
| JavaLang.NarrowToInt | Backend/src/main/java/com/stream/app/controllers/VideoController.java:103 | the `(int)` cast yields an `int` congruent to the `long` modulo 2^32, and equal to it when it fits |
| JavaLang.RemoveAllAbsent | Backend/src/main/java/com/stream/app/controllers/VideoController.java:90 | text without the first character of the target is left unchanged |
| ByteRange.RangeStartOfHeader | Backend/src/main/java/com/stream/app/controllers/VideoController.java:90-91 | a header `bytes=N-...` with N written in decimal (within the `long` range) starts at N, whatever follows the dash |
| ByteRange.RangeEndIgnored | Backend/src/main/java/com/stream/app/controllers/VideoController.java:90-91 | the end position a client sends is ignored: headers that agree before their first dash give the same start |
| ByteRange.SuffixRangeFails | Backend/src/main/java/com/stream/app/controllers/VideoController.java:90-91 | a suffix range `bytes=-N` has no start and fails to parse |
| ByteRange.NonNumericStartFails | Backend/src/main/java/com/stream/app/controllers/VideoController.java:90-91 | a start that still contains a character other than a digit or a sign once every `bytes=` is deleted from it (such as `5b` or `abc`) fails to parse |
| JavaLang.ParseLongOfToString | Backend/src/main/java/com/stream/app/controllers/VideoController.java:91 | `Long.parseLong` reads back every `long` that `Long.toString` writes |
| JavaLang.RemoveAllSplits | Backend/src/main/java/com/stream/app/controllers/VideoController.java:90 | deleting every `bytes=` acts separately on each side of a character that `bytes=` does not contain |
| ByteRange.RangeEndClamps | Backend/src/main/java/com/stream/app/controllers/VideoController.java:92-94 | for a start inside the file with no overflow, the chunk ends at the earlier of its own last byte and the file's, so it holds 1 to CHUNK_SIZE bytes, all inside the file |
| ByteRange.RangeEndAsWritten | Backend/src/main/java/com/stream/app/controllers/VideoController.java:92-94 | no contract of its own: `ByteRange.RangeEndClamps` gives its value for starts inside the file |
| ByteRange.ContentRangeRoundTrip | Backend/src/main/java/com/stream/app/controllers/VideoController.java:107 | the `Content-Range` text determines the start, end and length it was written from |
| ByteRange.ContentRangeText | Backend/src/main/java/com/stream/app/controllers/VideoController.java:107 | no contract of its own: `ByteRange.ContentRangeRoundTrip` says the text determines the three numbers it was written from |
| ByteRange.NoRangeServesWholeFile | Backend/src/main/java/com/stream/app/controllers/VideoController.java:83-85 | without a `Range` header the whole file is served with status 200 |
| ByteRange.AsWrittenInsideFile | Backend/src/main/java/com/stream/app/controllers/VideoController.java:90-118 | a start inside the file gets status 206, 1 to CHUNK_SIZE bytes, and a valid `Content-Range` naming the first and last byte sent and the file length |
| ByteRange.AsWrittenStartAtEnd | Backend/src/main/java/com/stream/app/controllers/VideoController.java:92-118 | a start equal to the file length gets a 206 with no bytes and a `Content-Range` whose last byte precedes its first |
| ByteRange.AsWrittenStartPastEnd | Backend/src/main/java/com/stream/app/controllers/VideoController.java:92-104 | a start just past the end of the file fails with a negative array size |
| ByteRange.AsWrittenPastEnd | Backend/src/main/java/com/stream/app/controllers/VideoController.java:92-121 | for every start past the end whose chunk does not overflow, the allocation fails exactly when the `(int)` cast of the negative length is negative; otherwise the answer is 206 with that negative length and an invalid range ending at the file's last byte |
| ByteRange.AsWrittenWrappedLength | Backend/src/main/java/com/stream/app/controllers/VideoController.java:92-121 | a start exactly 2^32 bytes past the end casts to an array of size 0 and is answered 206 with `Content-Length` −2^32 |
| ByteRange.AsWrittenWrappedLengthExample | Backend/src/main/java/com/stream/app/controllers/VideoController.java:79-121 | a file of 10 bytes and `Range: bytes=4294967306-` get 206 with `Content-Range: bytes 4294967306-9/10` and `Content-Length` −4294967296 |
| ByteRange.ServeFrom | Backend/src/main/java/com/stream/app/controllers/VideoController.java:92-121 | for a parsed start, status 416 comes exactly when the start is not inside the file, with the unsatisfied-range header; a failed read gives 500; otherwise 206 with a valid range starting at the start and exactly min(CHUNK_SIZE, L − start) bytes, the chunk clamped to the file |
| ByteRange.StreamRange | Backend/src/main/java/com/stream/app/controllers/VideoController.java:79-121 | no header gives the whole file; an unparsable header gives 500; a parsed start is handled as `ServeFrom` states |
| ByteRange.ServeFromAgreesInsideFile | Backend/src/main/java/com/stream/app/controllers/VideoController.java:92-121 | for every start inside the file whose chunk does not overflow, the checked handling and the code as written give the same response |
| ByteRange.StreamRangeAgreesInsideFile | Backend/src/main/java/com/stream/app/controllers/VideoController.java:79-121 | the same for whole requests: the two versions differ only for starts outside the file |
| ByteRange.StreamRangeAsWritten | Backend/src/main/java/com/stream/app/controllers/VideoController.java:79-121 | no contract of its own: `ByteRange.NoRangeServesWholeFile`, `ByteRange.AsWrittenInsideFile`, `ByteRange.AsWrittenStartAtEnd`, `ByteRange.AsWrittenPastEnd` and `ByteRange.AsWrittenStatus` cover its cases up to a `long` overflow of `start + CHUNK_SIZE - 1`; `ByteRange.AsWrittenStartPastEnd` and `ByteRange.AsWrittenWrappedLength` give the two outcomes past the end |
| ByteRange.ServeFromAsWritten | Backend/src/main/java/com/stream/app/controllers/VideoController.java:92-121 | no contract of its own: `ByteRange.ServeFromAgreesInsideFile` equates it with `ByteRange.ServeFrom` for every start inside the file |
| ByteRange.AsWrittenStatus | Backend/src/main/java/com/stream/app/controllers/VideoController.java:83-121 | as written, the answer is 200 exactly without a `Range` header and 500 for an unparsable start or a failed read; it is never 416 |
| ByteRange.StreamRangeStatus | Backend/src/main/java/com/stream/app/controllers/VideoController.java:83-121 | with the start checked, the answer is 200 exactly without a header, 416 exactly for a start at or past the end, 206 exactly for a start inside a readable file, and 500 exactly otherwise |
| ContentTypes.HlsContentTypeByExtension | Backend/src/main/java/com/stream/app/controllers/VideoController.java:138-147 | the chain of suffix tests gives the same media type as a table keyed by the text after the file name's last dot |
| ContentTypes.EndsWithDotIff | Backend/src/main/java/com/stream/app/controllers/VideoController.java:139-146 | for a dot-free extension, a name ends with the dot and extension exactly when that is the text after its last dot |
| ContentTypes.ServeHlsFile | Backend/src/main/java/com/stream/app/controllers/VideoController.java:134-154 | a missing file gives 404; an existing one is served with the media type of its extension |
| ContentTypes.HlsContentType | Backend/src/main/java/com/stream/app/controllers/VideoController.java:138-147 | no contract of its own: `ContentTypes.HlsContentTypeByExtension` equates the suffix chain with a table keyed by the text after the last dot |
| ContentTypes.PlaylistExample | Backend/src/main/java/com/stream/app/controllers/VideoController.java:139-140 | `index.m3u8` is served as `application/vnd.apple.mpegurl` |
| ContentTypes.SegmentExample | Backend/src/main/java/com/stream/app/controllers/VideoController.java:141-142 | `segment_003.ts` is served as `video/mp2t` |
| ContentTypes.ThumbnailExample | Backend/src/main/java/com/stream/app/controllers/VideoController.java:143-144 | `thumbnail.jpg` is served as `image/jpeg` |
| ContentTypes.UpperCaseExample | Backend/src/main/java/com/stream/app/controllers/VideoController.java:139-146 | suffixes are compared case-sensitively: `SEGMENT.TS` is served as `application/octet-stream` |
| ContentTypes.BackupExample | Backend/src/main/java/com/stream/app/controllers/VideoController.java:139-146 | only the last extension counts: `index.m3u8.bak` is served as `application/octet-stream` |

## Left out

- Words.SplitOnSpaceRuns: its contract does not say that the pieces, re-joined with the
  whitespace runs, give back the text. The word count built on it is fully characterized by
  `Words.CountWordsIsWordStarts`.
- **Network, timers, toasts and the DOM.**
  - axios requests, the server's reply to an upload, toasts, `console` output and the
    file-input reset are not modelled.
  - The outcome of each request arrives as an event.
- **JSON parsing of the AI reply.**
  - `JSON.parse` of a string reply is not modelled.
  - A reply that does not parse is the failure event.
  - Title and description are taken as optional strings. `|| ""` maps a missing value to
    `""`, and an empty string to itself.
- **Inputs and buttons disabled while busy.** During an upload the markup disables the title
  input, the description textarea and the upload button, and the file area takes no clicks;
  the AI button is also disabled while the AI request runs. The model lets any event arrive in
  any state, so it also covers edits the page would block.
- **Floating point in `Math.round`.** `RoundedPercent` uses exact arithmetic. Binary
  floating-point error in `loaded * 100 / total` near a half is not modelled.
- **The rendering of the player.** The video element's options, the option labels such as
  `1080p` and `Auto (1080p)`, and the CSS are not modelled; `SelectorOptions` covers only the
  option values.
- **The media engine.** It is a fake with the following assumptions:
  - replacing the source clears its own rendition list;
  - a disposed engine fires nothing;
  - new renditions arrive enabled;
  - readiness and discovery arrive as events.
  - each readiness event runs one queued `ready` callback. The engine runs all callbacks
    queued before it became ready together, so the model also allows events between the
    discovery subscription and a queued reset that the engine cannot interleave. This only
    adds behaviours; every property proved over all event sequences still holds.

  The actual video.js and quality-levels plugin internals are not modelled.
- **`streamVideoRange` inputs and outputs.**
  - The video lookup is taken as given; a lookup that fails or finds no video is not modelled.
  - The file is known by its length only.
  - A failure to open, skip or read it is one `openFails` parameter.
  - The bytes sent are not modelled. So a short read, which leaves the array's tail zero,
    is not modelled either.
- **Range arithmetic bounds.**
  - `CHUNK_SIZE` is a parameter between 1 and the largest `int`; its value is in a constants
    file that is not part of this model.
  - Lemmas about the as-written arithmetic assume `start + CHUNK_SIZE - 1` stays within
    `long`. The function itself wraps.
- **A negative `Content-Length`.** What Spring's `HttpHeaders.setContentLength` does with
  the negative length of a far-past-the-end start is not modelled; the response carries the
  value the code passes it.
- **Extra response headers.** `Cache-Control`, `Pragma`, `Expires` and
  `X-Content-Type-Options` are fixed values and are not modelled.
- **`MediaType.parseMediaType`.** Its failure on a malformed stored type is not modelled.
- **Exceptions.** The model reports status 500 for an exception the endpoint does not catch,
  which is Spring's default.
- **Unicode digits in `Long.parseLong`.** `ParseLong` accepts ASCII digits only;
  `Long.parseLong` also accepts other Unicode decimal digits.
- **`serveHlsFile`'s file system.** Whether the file under the video's directory exists is
  a parameter. Path resolution and the log line are not modelled.
- **Other parts of the app.** The video list, navigation bar, app shell, AI service and
  controller, the video service, and the upload and list endpoints are not part of this
  model.

## Findings

| source | as written | input that shows it | evidently intended | confidence | as-written member | corrected member |
|---|---|---|---|---|---|---|
| Backend/src/main/java/com/stream/app/controllers/VideoController.java:92-107 | The range start is not compared with the file length before the chunk is computed. | `Range: bytes=L-` for a file of length L: status 206 with `Content-Length: 0` and `Content-Range: bytes L-(L-1)/L`. `Range: bytes=(L+1)-`: `new byte[-1]` and status 500. `Range: bytes=4294967306-` for a file of 10 bytes: the `(int)` cast of −2^32 is 0, so status 206 with `Content-Length: -4294967296` and `Content-Range: bytes 4294967306-9/10`. | Section 4.4 of RFC 7233: status 416 with `Content-Range: bytes */L`. A `Content-Range` whose last byte precedes its first is invalid under section 4.2. | not executed | ByteRange.AsWrittenStartAtEnd, ByteRange.AsWrittenStartPastEnd, ByteRange.AsWrittenWrappedLengthExample (on ByteRange.StreamRangeAsWritten) | ByteRange.StreamRange, ByteRange.ServeFrom |
