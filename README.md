# PrivNurse text pipeline in Dafny

PrivNurse is a nursing-documentation assistant. Its back end builds an XML prompt from a patient's
diagnoses, nursing notes, lab reports and consultations, sends it to a local model and then
highlights the terms that the validating model names. A speech-to-text service turns dictated
notes into text, and a preprocessor turns hospital spreadsheets into training pairs.

This project models the deterministic text, list and map logic of those programs and proves what
it promises:

- **Discharge prompt** (`DischargeText`, `DischargeDiagnosis`, `DischargeEvents`, `DischargeXml`,
  `Events`). It covers XML escaping and paragraph-tag removal, the length style, and the four
  diagnosis buckets. It also covers the nursing, lab and consultation events, their stable sort
  by time, and the age shown for a patient.
- **Highlights** (`DischargeHighlights`). The terms are taken from the validator's reply: the
  `{`…`}` span with its four keys, or else the quoted terms and the long words. They are then
  de-duplicated in first-occurrence order.
- **Model service** (`Ollama`). It covers the accumulation of streamed `response` fields and the
  line filter of the stream. It also covers the `<answer>` extraction and the escape repair tried
  after a failed decode.
- **Input normalisers** (`Schemas`, `Validators`). They map nursing record types, coerce a stored
  diagnosis field, and normalise the patient category.
- **Speech service** (`GemmaApi`). It has the per-IP sliding-window rate limiter, a class over a
  map of timestamp lists. It also has the upload validator and the token cap.
- **Transcription route** (`AudioRoutes`). It covers the size check, the context string, the
  choice of the transcription field and the removal of one boilerplate prefix.
- **Training-data preprocessor** (`Preprocessing`). It covers text cleaning, the word-count
  hint, the SOAP and consultation events, and the prompt and record of one patient. It also
  covers the batches of `main`, with the tracker's counters as a class.

Foreign code is modelled as function parameters: `json.loads` as `parse`, `ast.literal_eval` as
`literalEval`, the `Diagnosis` constructor, Python's `str()` of a value as `show`, the
medical-term regex, the speech service, and the model service's reply. The clock is a
parameter. A decoded JSON value is the datatype `PyJson.Value`. A raised exception is an
`Option` or `Result` case.

The speech service accepts six audio formats, including `.webm` (`gemma_api.py:39`).

## Model

| member | source | states |
|---|---|---|
| DischargeText.CleanText | privnurse_gemma3n/backend/routes/discharge_routes.py:27-40 | a missing or empty value gives ""; the result is empty iff the untagged, stripped text is; the result is XML-safe (no raw `<`, `>`, `"`, `'`, and each `&` opens an entity) and decodes back to the untagged, stripped text |
| DischargeText.EscapeXmlIsEscapeEach | privnurse_gemma3n/backend/routes/discharge_routes.py:35-39 | the five `replace` calls, `&` first, escape every character exactly once |
| DischargeText.UnescapeEscapeEach | privnurse_gemma3n/backend/routes/discharge_routes.py:35-39 | decoding the five entities undoes the escaping |
| DischargeText.EscapeEachSafe | privnurse_gemma3n/backend/routes/discharge_routes.py:35-39 | escaped text holds no raw `<`, `>`, `"` or `'`, and every `&` begins one of the five entities |
| DischargeText.EscapeEachLonger | privnurse_gemma3n/backend/routes/discharge_routes.py:35-39 | escaping never shortens a text, and it lengthens every text that holds a special character |
| DischargeText.RemovePTagsNoLt | privnurse_gemma3n/backend/routes/discharge_routes.py:33 | a text without `<` has no paragraph tag to remove |
| DischargeText.EscapedIsClean | privnurse_gemma3n/backend/routes/discharge_routes.py:33-39 | an escaped, stripped text has no tag to remove and no white space to trim |
| Strings.RemovePTagsChanges | privnurse_gemma3n/backend/routes/discharge_routes.py:33 | the tag removal changes a text iff it holds `<p>` or `</p>`, and then shortens it |
| Strings.StripIdempotent | privnurse_gemma3n/backend/routes/discharge_routes.py:33 | stripping a stripped text changes nothing |
| Strings.NatToStringRoundTrip | privnurse_gemma3n/backend/routes/discharge_routes.py:1067 | the decimal string of the age reads back as the age |
| DischargeText.CleanTwice | privnurse_gemma3n/backend/routes/discharge_routes.py:27-40 | cleaning a cleaned text escapes the stripped text twice |
| DischargeText.LengthHintBuckets | privnurse_gemma3n/backend/routes/discharge_routes.py:42-49 | "short" iff below 1200 characters, "medium" iff 1200 to 2099, "long" iff 2100 or more; monotone in the length |
| DischargeText.AgeIsCompletedYears | privnurse_gemma3n/backend/routes/discharge_routes.py:1063-1067 | the age is the number of birthdays reached: the age-th birthday is on or before today, the next one is after it |
| DischargeText.CalculateAge | privnurse_gemma3n/backend/routes/discharge_routes.py:1054-1072 | "Unknown" iff the birthday is missing; otherwise the decimal string of the completed years |
| DischargeDiagnosis.BucketOf | privnurse_gemma3n/backend/routes/discharge_routes.py:86-99 | each bucket in both directions: "primary" wins, then "secondary", then "past", then "present" or "current"; anything else is secondary |
| DischargeDiagnosis.Rendered | privnurse_gemma3n/backend/routes/discharge_routes.py:78-83 | "text (code)" when both are truthy, the text itself when only it is, `str(d)` otherwise |
| DischargeDiagnosis.Place | privnurse_gemma3n/backend/routes/discharge_routes.py:71-99 | a non-dict goes to primary as `str(d)`; a dict is placed iff its category is a string, in the bucket of its lower-cased category |
| DischargeDiagnosis.Collected | privnurse_gemma3n/backend/routes/discharge_routes.py:70-99 | each bucket holds the renderings of the items placed in it, in input order |
| DischargeDiagnosis.CollectedStep | privnurse_gemma3n/backend/routes/discharge_routes.py:70-99 | one more item appends its rendering to its own bucket and to no other |
| DischargeDiagnosis.Categorize | privnurse_gemma3n/backend/routes/discharge_routes.py:70-99 | the appending loop gives the four buckets, or the raise of a non-string category |
| DischargeDiagnosis.MembersPartition | privnurse_gemma3n/backend/routes/discharge_routes.py:70-99 | every item lands in exactly one bucket: the bucket sizes add up to the list length |
| DischargeDiagnosis.JoinValues | privnurse_gemma3n/backend/routes/discharge_routes.py:101-105 | `"; ".join` succeeds iff every member is a string |
| DischargeDiagnosis.ListDiagnosesJoined | privnurse_gemma3n/backend/routes/discharge_routes.py:101-105 | each result is the "; "-join of its bucket's renderings, in input order |
| DischargeDiagnosis.BadCategoryFallsBack | privnurse_gemma3n/backend/routes/discharge_routes.py:157-164 | a non-string category makes the primary result `str(data)` and leaves the other three empty |
| DischargeDiagnosis.FalsyDiagnosisEmpty | privnurse_gemma3n/backend/routes/discharge_routes.py:58-166 | missing or empty data gives four empty strings |
| DischargeDiagnosis.Cleaned | privnurse_gemma3n/backend/routes/discharge_routes.py:166 | the four returned strings are XML-safe |
| DischargeDiagnosis.CollectDiagnoses | privnurse_gemma3n/backend/routes/discharge_routes.py:51-164 | the body up to the final cleaning equals the reference `RawDiagnoses` for every shape of input |
| DischargeDiagnosis.FormatDiagnosisList | privnurse_gemma3n/backend/routes/discharge_routes.py:51-166 | the result is the cleaned reference diagnoses |
| DischargeEvents.FilterMapSpec | privnurse_gemma3n/backend/routes/discharge_routes.py:171-222 | a loop that appends or `continue`s keeps one event per kept item, and each event comes from a kept item |
| DischargeEvents.SoapTag | privnurse_gemma3n/backend/routes/discharge_routes.py:206-215 | the tag is one of the five SOAP elements, and it is the record type itself iff the type is one of them |
| DischargeEvents.LastIndexWith | privnurse_gemma3n/backend/routes/discharge_routes.py:188-194 | the index of the last part that starts with the tag, or -1 when none does |
| DischargeEvents.LastTaggedIsLast | privnurse_gemma3n/backend/routes/discharge_routes.py:188-194 | the field comes from the last part that starts with the tag, or keeps its default |
| DischargeEvents.ParseVitalSign | privnurse_gemma3n/backend/routes/discharge_routes.py:182-194 | the loop over the `|` parts gives the reference (type, value) pair |
| DischargeEvents.NursingEventOf | privnurse_gemma3n/backend/routes/discharge_routes.py:172-218 | a note gives an event iff it has a record time, and the event is at that time |
| DischargeEvents.FormatNursingEvents | privnurse_gemma3n/backend/routes/discharge_routes.py:168-225 | the events of the notes, in order, without the dropped ones |
| DischargeEvents.NursingEventsKeepTimed | privnurse_gemma3n/backend/routes/discharge_routes.py:174-176 | no more events than notes; with every note timed, one event per note; each event is at some note's time |
| DischargeEvents.DistinctDatesSpec | privnurse_gemma3n/backend/routes/discharge_routes.py:235-246 | the `date_groups` keys are exactly the report dates, in first-appearance order, without repeats |
| DischargeEvents.ReportsOnSpec | privnurse_gemma3n/backend/routes/discharge_routes.py:235-246 | a group holds exactly the reports of its date |
| DischargeEvents.GroupByDate | privnurse_gemma3n/backend/routes/discharge_routes.py:235-246 | the grouping loop gives the distinct dates and, for each, the reports of that date in input order |
| DischargeEvents.LabItems | privnurse_gemma3n/backend/routes/discharge_routes.py:253-262 | one `<Item>` line per report of the group, in order |
| DischargeEvents.LabGroupEvent | privnurse_gemma3n/backend/routes/discharge_routes.py:264-273 | a group gives an event iff its date is present, timed at midnight of that date |
| DischargeEvents.FormatLabEvents | privnurse_gemma3n/backend/routes/discharge_routes.py:227-276 | the result is the reference events of the distinct dates |
| DischargeEvents.LabEventsOnePerDate | privnurse_gemma3n/backend/routes/discharge_routes.py:251-273 | one event per dated group, at midnight of its date, in the order of the distinct dates (first appearance) |
| DischargeEvents.ConsultationEventOf | privnurse_gemma3n/backend/routes/discharge_routes.py:283-301 | an event iff there is a date and a non-empty cleaned confirmation; it is at the date |
| DischargeEvents.FormatConsultationEvents | privnurse_gemma3n/backend/routes/discharge_routes.py:278-306 | the events of the consultations, in order, without the skipped ones |
| Events.SortByTimeSorted | privnurse_gemma3n/backend/routes/discharge_routes.py:352-353 | the sort gives a time-ordered permutation of the events |
| Events.SortByTimeStable | privnurse_gemma3n/backend/routes/discharge_routes.py:352-353 | events with equal timestamps keep their relative order |
| Events.Xmls | privnurse_gemma3n/backend/routes/discharge_routes.py:356 | the XML strings of the events, one per event, in order |
| DischargeXml.GatherEvents | privnurse_gemma3n/backend/routes/discharge_routes.py:334-350 | the three `extend` calls give nursing, then lab, then consultation events |
| DischargeXml.GenerateDischargeXml | privnurse_gemma3n/backend/routes/discharge_routes.py:308-375 | the document equals `DischargeDocument`: the summary, the time-sorted events and the length style, with the present illness passed through `clean_text` a second time as line 370 does |
| DischargeXml.DocumentsAgreeWithoutPresentDiagnosis | privnurse_gemma3n/backend/routes/discharge_routes.py:328-370 | without a present-bucket diagnosis the document as written equals the corrected one: the two differ only in a present illness taken from the diagnoses |
| DischargeXml.DocumentEventsOrdered | privnurse_gemma3n/backend/routes/discharge_routes.py:334-356 | the document's events are all events once, in time order; ties keep the order nursing, lab, consultation |
| DischargeXml.PresentIllnessDoubleEscaped | privnurse_gemma3n/backend/routes/discharge_routes.py:328-370 | with `&` in a present-bucket diagnosis, the section as written does not decode to the diagnosis |
| DischargeXml.PresentIllnessCleanedOnce | privnurse_gemma3n/backend/routes/discharge_routes.py:328-370 | the corrected section is XML-safe and decodes to the diagnosis, or to the patient's notes when the bucket is empty |
| DischargeHighlights.QuotedHead | privnurse_gemma3n/backend/routes/discharge_routes.py:1030-1031 | the first match is the run between the opening quote and the next quote |
| DischargeHighlights.QuotedTermsSound | privnurse_gemma3n/backend/routes/discharge_routes.py:1030-1031 | every quoted term is non-empty, holds no quote and stands between two quotes of the reply |
| DischargeHighlights.LongWords | privnurse_gemma3n/backend/routes/discharge_routes.py:1041-1042 | exactly the words longer than five characters, each as often as it occurs |
| DischargeHighlights.LongWordsAppend | privnurse_gemma3n/backend/routes/discharge_routes.py:1041-1042 | the filter keeps the order of the words: two runs give the first run's long words, then the second's |
| DischargeHighlights.LongWordsOne | privnurse_gemma3n/backend/routes/discharge_routes.py:1041-1042 | one word is kept iff it is longer than five characters |
| DischargeHighlights.BraceSpan | privnurse_gemma3n/backend/routes/discharge_routes.py:1010-1015 | a span, when found, starts with `{` and ends with `}` |
| DischargeHighlights.BraceSpanFirstToLast | privnurse_gemma3n/backend/routes/discharge_routes.py:1010-1015 | a `{` before a `}` gives a span, and the span runs from the first `{` to the last `}` |
| DischargeHighlights.BraceSpanNone | privnurse_gemma3n/backend/routes/discharge_routes.py:1010-1015 | there is no span iff no `{` comes before a `}` |
| DischargeHighlights.KeyedTerms | privnurse_gemma3n/backend/routes/discharge_routes.py:1016-1024 | on a dict: the first key's value when it is present, `[]` when no key is; `in` on a value that has no `in` raises |
| DischargeHighlights.KeyedTermsOrder | privnurse_gemma3n/backend/routes/discharge_routes.py:1016-1024 | a dict answers with the value of the first of the four keys it holds |
| DischargeHighlights.DedupTerms | privnurse_gemma3n/backend/routes/discharge_routes.py:1044-1052 | the `seen` loop raises iff a truthy term is unhashable; otherwise it gives the reference de-duplication |
| DischargeHighlights.DedupKeys | privnurse_gemma3n/backend/routes/discharge_routes.py:1044-1052 | the kept values are exactly the values of the truthy terms |
| DischargeHighlights.DedupIsFirsts | privnurse_gemma3n/backend/routes/discharge_routes.py:1044-1052 | the kept terms are the first occurrence of each truthy value, in input order |
| DischargeHighlights.DedupDistinct | privnurse_gemma3n/backend/routes/discharge_routes.py:1044-1052 | no two kept terms are equal, and none is empty |
| DischargeHighlights.ExtractRelevantTextFromValidation | privnurse_gemma3n/backend/routes/discharge_routes.py:997-1052 | the result is the de-duplicated candidate terms, or the raise when they cannot be iterated or hashed |
| Ollama.Contribution | privnurse_gemma3n/backend/services/ollama_service.py:198-208 | an empty or undecodable line adds ""; an object line with a string `response` adds that string; an object line raises iff its `response` is present and not a string; a decoded non-object adds "" when `'response' in data` is false and raises otherwise (a number, or a list or string holding it); whatever is added is the line's `response` field |
| Ollama.Then | privnurse_gemma3n/backend/services/ollama_service.py:204 | appending keeps going iff neither side has raised |
| Ollama.AccumulateResponse | privnurse_gemma3n/backend/services/ollama_service.py:191-211 | the loop gives `Accumulated`, which `AccumulatedIsResponses` ties to the `response` fields |
| Ollama.AddLine | privnurse_gemma3n/backend/services/ollama_service.py:197-208 | one pass of the loop appends the line's contribution, or raises |
| Ollama.AccumulatedIsResponses | privnurse_gemma3n/backend/services/ollama_service.py:191-211 | the reply is the `response` strings of all lines, in order; the call raises iff some line raises |
| Ollama.AccumulatedAppend | privnurse_gemma3n/backend/services/ollama_service.py:197-208 | the reply for two runs of lines is the first followed by the second: the `response` fields in order |
| Ollama.SkippedLine | privnurse_gemma3n/backend/services/ollama_service.py:198-208 | an empty or undecodable line changes nothing and does not stop the loop |
| Ollama.GenerateStream | privnurse_gemma3n/backend/services/ollama_service.py:35-60 | the loop yields the reference stream |
| Ollama.ChunksWellFormed | privnurse_gemma3n/backend/services/ollama_service.py:45-55 | each yielded line decodes, is stripped at both ends and ends with exactly one newline; never more lines than input |
| Ollama.ChunkOfLine | privnurse_gemma3n/backend/services/ollama_service.py:45-55 | a line yields its stripped text and a newline iff that text is not empty and decodes, and nothing otherwise |
| Ollama.ChunksAppend | privnurse_gemma3n/backend/services/ollama_service.py:56-60 | a dropped line does not stop the stream: the output for two runs is the first's followed by the second's |
| Ollama.StreamErrorIsDone | privnurse_gemma3n/backend/services/ollama_service.py:35-41 | another status yields exactly one line, which ends with `"done": true}` and a newline |
| Ollama.FirstBetweenFirstShortest | privnurse_gemma3n/backend/services/ollama_service.py:111-113 | the capture runs from the first `<answer>` to the nearest `</answer>` after it |
| Ollama.FirstBetweenNone | privnurse_gemma3n/backend/services/ollama_service.py:111-117 | no capture iff no opening tag is followed by a closing tag |
| Ollama.FirstBetweenWrapped | privnurse_gemma3n/backend/services/ollama_service.py:111-113 | wrapped text without a closing tag inside is captured whole |
| Ollama.AnswerBodyOfAnswer | privnurse_gemma3n/backend/services/ollama_service.py:111-115 | a summary that is one answer element gives its stripped content |
| Ollama.ValidationSummary | privnurse_gemma3n/backend/services/ollama_service.py:110-117 | a summary with an answer element is replaced by the stripped answer body; one without is left unchanged |
| Ollama.RepairEscapes | privnurse_gemma3n/backend/services/ollama_service.py:241-256 | the replacement loop gives the reference repair of all eight escapes |
| Ollama.ReplaceEscapeDropsBackslashes | privnurse_gemma3n/backend/services/ollama_service.py:255 | replacing an escape by its bare character only deletes backslashes |
| Ollama.RepairOnlyDropsBackslashes | privnurse_gemma3n/backend/services/ollama_service.py:242-256 | the repair deletes backslashes and nothing else, and never lengthens the text |
| Ollama.RepairWithoutBackslash | privnurse_gemma3n/backend/services/ollama_service.py:253-255 | a reply without backslashes is left as it is |
| Ollama.RelevantOf | privnurse_gemma3n/backend/services/ollama_service.py:226 | `.get` succeeds iff the decoded value is a dict |
| Ollama.ExtractRelevantText | privnurse_gemma3n/backend/services/ollama_service.py:213-288 | a decodable reply is used as it is; the repaired one only when that fails; after both fail, the text is extracted iff `literal_eval` of the repaired text with Python literals gives an object whose `relevant_text` is truthy, and it is then that object's text |
| Ollama.RepairOnlyAfterFailure | privnurse_gemma3n/backend/services/ollama_service.py:219-233 | the repair is never consulted when the first decoding succeeds |
| Ollama.ValidationOf | privnurse_gemma3n/backend/services/ollama_service.py:133-155 | a success iff the reply holds a text whose extraction is truthy; for a full reply: a truthy extracted text is the result, a falsy one gives the missing-field error, a decode error gives the parsing error, and an uncaught error raises |
| Ollama.EmptyErrorRaises | privnurse_gemma3n/backend/services/ollama_service.py:133-141 | an error with an empty message makes the function as written raise |
| Ollama.ValidationTextAsWritten | privnurse_gemma3n/backend/services/ollama_service.py:124-155 | as written: an error reply with a message is returned, one with an empty message makes the function raise; a full reply gives the extracted text when truthy, the missing-field error when falsy, the parsing error on a decode error, and raises on an uncaught error |
| Ollama.ValidationText | privnurse_gemma3n/backend/services/ollama_service.py:124-155 | the corrected version of the second finding: every error reply of the request is returned as an error; a full reply gives the extracted text when truthy, the missing-field error when falsy, the parsing error on a decode error, and raises on an uncaught error |
| Schemas.Lookup | privnurse_gemma3n/backend/schemas.py:246-288 | `mapping.get`: a found value is an entry for the key; nothing is found iff no entry has the key |
| Schemas.MappingValuesValid | privnurse_gemma3n/backend/schemas.py:246-291 | every value of the mapping is one of the six valid types |
| Schemas.MapRecordTypeTotal | privnurse_gemma3n/backend/schemas.py:288-295 | the validator never raises, gives a valid type, and gives "NarrativeNote" for any name not in the table |
| Schemas.ValidTypesFixed | privnurse_gemma3n/backend/schemas.py:279-284 | the six valid types map to themselves |
| Schemas.MapRecordTypeIdempotent | privnurse_gemma3n/backend/schemas.py:243-295 | mapping a mapped type again gives the same type |
| Schemas.MapRecordTypeUpdate | privnurse_gemma3n/backend/schemas.py:305-361 | `None` stays `None`; any other value behaves exactly like the create validator |
| Schemas.DiagnosisItems | privnurse_gemma3n/backend/schemas.py:221 | one item per input item: each dict is what the constructor built from it, non-dicts are kept as they are; fails iff some dict's constructor raises |
| Schemas.ParseDiagnosis | privnurse_gemma3n/backend/schemas.py:214-227 | a list passes through; a non-string non-list, an undecodable string or a decoded non-list gives `[]`; a decoded list gives the constructed diagnoses, or `[]` when a constructor raises |
| Validators.CaseInsensitiveMatch | privnurse_gemma3n/backend/utils/validators.py:30-32 | the match is a valid category equal ignoring case; none iff no valid category is |
| Validators.ValidatePatientCategory | privnurse_gemma3n/backend/utils/validators.py:9-38 | the empty category is an error, and nothing else gives that error; a success is a valid category; a valid category is returned unchanged; a category is refused iff it is empty, or not valid, not an NHI insurance spelling and not a valid name in another case, and the refusal names the category and the valid options |
| Validators.ValidHaveNoInsurance | privnurse_gemma3n/backend/utils/validators.py:7 | no valid category contains "insurance" in lower case |
| Validators.ValidLowerDistinct | privnurse_gemma3n/backend/utils/validators.py:7 | the valid categories differ even in lower case |
| Validators.InsuranceIsGeneral | privnurse_gemma3n/backend/utils/validators.py:25-27 | any category whose lower case holds "insurance" and "nhi" gives "NHI General" |
| Validators.CaseInsensitiveCanonical | privnurse_gemma3n/backend/utils/validators.py:29-32 | a valid category in any letter case gives its canonical spelling |
| Validators.ValidatePatientCategoryIdempotent | privnurse_gemma3n/backend/utils/validators.py:17-38 | normalising a normalised category gives it back |
| GemmaApi.Recent | ExpertC_LLMServer_Nursing_Note_Speak_to_Text/gemma-audio-api/gemma_api.py:72-75 | keeps exactly the timestamps less than one minute older than now, each as often as it occurs, and no other |
| GemmaApi.RecentAppend | ExpertC_LLMServer_Nursing_Note_Speak_to_Text/gemma-audio-api/gemma_api.py:72-75 | the pruning keeps the order: two runs give the first run's kept timestamps, then the second's |
| GemmaApi.Step | ExpertC_LLMServer_Nursing_Note_Speak_to_Text/gemma-audio-api/gemma_api.py:72-81 | allowed iff fewer than 25 recent entries; then the list grows by one, otherwise it is the pruned list |
| GemmaApi.RateStep | ExpertC_LLMServer_Nursing_Note_Speak_to_Text/gemma-audio-api/gemma_api.py:65-81 | the IP gains an entry if missing, other IPs' lists are unchanged, and the IP's list and answer are one step |
| GemmaApi.StepBounded | ExpertC_LLMServer_Nursing_Note_Speak_to_Text/gemma-audio-api/gemma_api.py:77-80 | the list never exceeds 25 entries |
| GemmaApi.RateStepBounded | ExpertC_LLMServer_Nursing_Note_Speak_to_Text/gemma-audio-api/gemma_api.py:63-81 | a storage within the limit stays within it |
| GemmaApi.RateStepRecent | ExpertC_LLMServer_Nursing_Note_Speak_to_Text/gemma-audio-api/gemma_api.py:72-75 | after a call, the IP's list holds only timestamps less than one minute older than now |
| GemmaApi.StepAppends | ExpertC_LLMServer_Nursing_Note_Speak_to_Text/gemma-audio-api/gemma_api.py:77-81 | an allowed call appends exactly `now`; a refused one appends nothing |
| GemmaApi.RateLimiter.constructor | ExpertC_LLMServer_Nursing_Note_Speak_to_Text/gemma-audio-api/gemma_api.py:63 | the storage starts empty |
| GemmaApi.RateLimiter.CheckRateLimit | ExpertC_LLMServer_Nursing_Note_Speak_to_Text/gemma-audio-api/gemma_api.py:65-81 | the in-place update keeps the storage within the limit, and the new storage and answer are those of `RateStep` |
| GemmaApi.Run | ExpertC_LLMServer_Nursing_Note_Speak_to_Text/gemma-audio-api/gemma_api.py:65-81 | a run of calls from one IP gives one decision per call |
| GemmaApi.RecentTwice | ExpertC_LLMServer_Nursing_Note_Speak_to_Text/gemma-audio-api/gemma_api.py:72-75 | pruning at an earlier time and then at a later one is pruning at the later one |
| GemmaApi.RunWindow | ExpertC_LLMServer_Nursing_Note_Speak_to_Text/gemma-audio-api/gemma_api.py:72-81 | with a clock that never goes back, the stored list is exactly the allowed calls of the last minute |
| GemmaApi.RunDecision | ExpertC_LLMServer_Nursing_Note_Speak_to_Text/gemma-audio-api/gemma_api.py:72-81 | a call is allowed iff fewer than 25 calls were allowed in the minute before it |
| GemmaApi.SplitExt | ExpertC_LLMServer_Nursing_Note_Speak_to_Text/gemma-audio-api/gemma_api.py:187 | root and extension concatenate to the name; the extension is empty or a dot with no dot or slash after it |
| GemmaApi.SplitExtOfJoin | ExpertC_LLMServer_Nursing_Note_Speak_to_Text/gemma-audio-api/gemma_api.py:187 | a proper root followed by an extension splits back into the two |
| GemmaApi.ValidateAudioFile | ExpertC_LLMServer_Nursing_Note_Speak_to_Text/gemma-audio-api/gemma_api.py:181-195 | refused without a name, with a lower-cased extension outside the six formats, or with a known size above 50 MB; accepted otherwise |
| GemmaApi.AcceptedEndsWithFormat | ExpertC_LLMServer_Nursing_Note_Speak_to_Text/gemma-audio-api/gemma_api.py:187-189 | an accepted name ends, in some letter case, with one of the formats |
| GemmaApi.FormatsAreExtensions | ExpertC_LLMServer_Nursing_Note_Speak_to_Text/gemma-audio-api/gemma_api.py:39 | each format is a dot followed by lower-case letters and digits, so it holds no other dot and no slash |
| GemmaApi.AcceptsEveryFormat | ExpertC_LLMServer_Nursing_Note_Speak_to_Text/gemma-audio-api/gemma_api.py:187-195 | any proper name with one of the formats, in any letter case, is accepted within the size limit |
| GemmaApi.DotFileRefused | ExpertC_LLMServer_Nursing_Note_Speak_to_Text/gemma-audio-api/gemma_api.py:187-189 | a name that is only an extension, such as ".wav", is refused |
| GemmaApi.TokenBudget | ExpertC_LLMServer_Nursing_Note_Speak_to_Text/gemma-audio-api/gemma_api.py:372 | the budget is the request, capped at 4096; a missing `max_tokens` (`null` in the request) raises, as `min(None, 4096)` does |
| AudioRoutes.BuildContext | privnurse_gemma3n/backend/routes/audio_routes.py:49-55 | the `+=` steps give the reference context string |
| AudioRoutes.ContextTextOrder | privnurse_gemma3n/backend/routes/audio_routes.py:50-55 | patient first, then the record type, then the context at the end; an empty part is the same as a missing one |
| AudioRoutes.Fields | privnurse_gemma3n/backend/routes/audio_routes.py:65 | the three fields, `""` when missing, in the order generated_text, text, transcription |
| AudioRoutes.Or | privnurse_gemma3n/backend/routes/audio_routes.py:65 | Python's `or`: the first truthy value, or the last value when none is truthy |
| AudioRoutes.TranscriptOf | privnurse_gemma3n/backend/routes/audio_routes.py:65 | a field is chosen iff the reply is a dict |
| AudioRoutes.FirstPrefixFrom | privnurse_gemma3n/backend/routes/audio_routes.py:85-89 | the first prefix in list order that matches ignoring case, and none iff none matches |
| AudioRoutes.RemoveUnwantedPrefix | privnurse_gemma3n/backend/routes/audio_routes.py:84-89 | the loop that breaks on the first match gives the reference cleaned transcription |
| AudioRoutes.CleanedShorterIffPrefix | privnurse_gemma3n/backend/routes/audio_routes.py:84-89 | for prefixes that are not empty, the text gets shorter than the stripped text iff a prefix matches; otherwise it is only stripped |
| AudioRoutes.FirstPrefixRemoved | privnurse_gemma3n/backend/routes/audio_routes.py:72-89 | exactly the first matching prefix in list order is removed, and the rest is stripped again |
| AudioRoutes.TranscribedFromFirstField | privnurse_gemma3n/backend/routes/audio_routes.py:60-103 | a transcription comes from a dict reply, out of the first truthy field, which is a non-empty string, and it is that string cleaned |
| AudioRoutes.HandleReply | privnurse_gemma3n/backend/routes/audio_routes.py:60-103 | the steps after the call give the reference reply outcome, whose cases `ReplyOutcomeCases` states |
| AudioRoutes.ReplyOutcomeCases | privnurse_gemma3n/backend/routes/audio_routes.py:60-96 | no reply or a falsy one gives the 500 "no response" error; a truthy non-dict reply is an internal error; for a dict, a falsy first truthy field gives the 500 "no transcription" error, a non-string one an internal error, and a non-empty string its cleaned text |
| AudioRoutes.ReplyTranscribed | privnurse_gemma3n/backend/routes/audio_routes.py:60-96 | a dict reply whose first truthy field is a non-empty string is transcribed as that string cleaned |
| AudioRoutes.Transcription | privnurse_gemma3n/backend/routes/audio_routes.py:24-103 | 404 iff the patient is missing; 400 for an upload over 10 MB; a transcription only for a known patient within the limit; for a known patient within the limit the outcome is that of the model's reply to the patient's context |
| AudioRoutes.TranscribesKnownPatient | privnurse_gemma3n/backend/routes/audio_routes.py:24-103 | a known patient, an upload within 10 MB and a dict reply whose first truthy field is a non-empty string give that string cleaned as the transcription |
| AudioRoutes.TranscribeAudio | privnurse_gemma3n/backend/routes/audio_routes.py:24-103 | the route gives the reference outcome: 404 for a missing patient, 400 over 10 MB, otherwise the outcome of the model's reply (its cases in `ReplyOutcomeCases`, its success in `TranscribesKnownPatient`) |
| AudioRoutes.LargeUploadNeverSent | privnurse_gemma3n/backend/routes/audio_routes.py:46-47 | an upload over 10 MB is answered without the speech service: the answer does not depend on it |
| Preprocessing.CleanText | Data_Preprocessing/PrivNurse_data_preprocessing.py:95-102 | a missing value gives ""; the result is never longer than the text |
| Preprocessing.CleanTextMatchesDischarge | Data_Preprocessing/PrivNurse_data_preprocessing.py:95-102 | a text without tags is only stripped; the discharge cleaning is this cleaning followed by escaping |
| Preprocessing.LengthHintBuckets | Data_Preprocessing/PrivNurse_data_preprocessing.py:179-193 | "unknown" iff there is no integer count; "short" iff below 400, "medium" iff 400 to 699, "long" iff 700 or more; monotone |
| Preprocessing.CleanCells | Data_Preprocessing/PrivNurse_data_preprocessing.py:240 | each cell cleaned, with its tag, in order |
| Preprocessing.Parts | Data_Preprocessing/PrivNurse_data_preprocessing.py:239-242 | at most one part per cell |
| Preprocessing.PartsAppend | Data_Preprocessing/PrivNurse_data_preprocessing.py:239-242 | the parts of a list are the parts of its pieces, in order |
| Preprocessing.PartsEmpty | Data_Preprocessing/PrivNurse_data_preprocessing.py:241-244 | there are no parts iff every cleaned cell is empty |
| Preprocessing.CollectParts | Data_Preprocessing/PrivNurse_data_preprocessing.py:238-242 | the appending loop gives the reference parts of the cleaned cells |
| Preprocessing.SummaryPartsInOrder | Data_Preprocessing/PrivNurse_data_preprocessing.py:374-386 | the summary is the part of each of the five cells, in the order primary, secondary, past, chief complaint, present illness |
| Preprocessing.CollectNursingParts | Data_Preprocessing/PrivNurse_data_preprocessing.py:221-245 | the vital sign, then the SOAP note, each when there is one |
| Preprocessing.NursingEventOf | Data_Preprocessing/PrivNurse_data_preprocessing.py:218-252 | an event is at the row's timestamp |
| Preprocessing.NursingEventKept | Data_Preprocessing/PrivNurse_data_preprocessing.py:218-252 | a row gives an event iff it has a timestamp and a vital sign or a non-empty cleaned SOAP cell |
| Preprocessing.NursingRowEvent | Data_Preprocessing/PrivNurse_data_preprocessing.py:220-252 | the loop body gives the reference event of the row |
| Preprocessing.FormatNursingEvents | Data_Preprocessing/PrivNurse_data_preprocessing.py:201-254 | the events of the rows, in order, without the dropped ones |
| Preprocessing.ConsultEventOf | Data_Preprocessing/PrivNurse_data_preprocessing.py:297-307 | an event iff the reply time is valid and the cleaned reply is non-empty; it holds that time and text |
| Preprocessing.FormatConsultEvents | Data_Preprocessing/PrivNurse_data_preprocessing.py:287-309 | the events of the rows, in order, without the skipped ones |
| Preprocessing.BuildInputText | Data_Preprocessing/PrivNurse_data_preprocessing.py:371-395 | the prompt holds the hint, the non-empty summary parts and the events |
| Preprocessing.RecordFrom | Data_Preprocessing/PrivNurse_data_preprocessing.py:345-369 | a record iff the cleaned treatment course is non-empty, and it is the output text |
| Preprocessing.RecordEventsOrdered | Data_Preprocessing/PrivNurse_data_preprocessing.py:330-349 | the prompt's events are all events once, in time order; ties keep the order consultations, labs, nursing |
| Preprocessing.ProgressTracker.constructor | Data_Preprocessing/PrivNurse_data_preprocessing.py:58-65 | both counters start at zero |
| Preprocessing.GatherPatientEvents | Data_Preprocessing/PrivNurse_data_preprocessing.py:327-343 | the events in formatter order; one error counted per raising formatter; the record count is unchanged |
| Preprocessing.ProcessPatientRecord | Data_Preprocessing/PrivNurse_data_preprocessing.py:321-369 | the reference record, one more record processed, and the patient's failures added to the errors |
| Preprocessing.RecordsHaveOutput | Data_Preprocessing/PrivNurse_data_preprocessing.py:364-369 | at most one record per summary row, each with a non-empty output text |
| Preprocessing.RecordsSnoc | Data_Preprocessing/PrivNurse_data_preprocessing.py:414-416 | one more row adds its record, if any, at the end |
| Preprocessing.FailuresSnoc | Data_Preprocessing/PrivNurse_data_preprocessing.py:321-343 | one more row adds the number of its formatters that raise |
| Preprocessing.ProcessPatientsBatch | Data_Preprocessing/PrivNurse_data_preprocessing.py:397-418 | the records of the batch in order; one record processed per row; the failures counted |
| Preprocessing.BatchesPartition | Data_Preprocessing/PrivNurse_data_preprocessing.py:508-522 | `ceil(total / 100)` batches, each non-empty and at most 100 rows, each starting where the last ended, the last ending at `total` |
| Preprocessing.RecordsExtend | Data_Preprocessing/PrivNurse_data_preprocessing.py:532 | the records of a prefix and the next slice are those of the longer prefix |
| Preprocessing.FailuresExtend | Data_Preprocessing/PrivNurse_data_preprocessing.py:532 | the failures of a prefix and the next slice add up to those of the longer prefix |
| Preprocessing.ProcessBatchAt | Data_Preprocessing/PrivNurse_data_preprocessing.py:519-531 | one batch appends its records and counts its rows and failures, so the records so far are those of all rows before the next batch |
| Preprocessing.BuildDataset | Data_Preprocessing/PrivNurse_data_preprocessing.py:506-532 | the batch loop gives the records of all rows in order, with every row processed once |

## Left out

- HTTP, database and file I/O are not modelled: the FastAPI routes, SQLAlchemy queries, aiohttp and requests sessions, model loading and audio conversion. The network replies are parameters.
- `json.loads`, `ast.literal_eval`, pydantic's `Diagnosis`, Python's `str()` and `repr` of a value, and the medical-term regex are parameters; nothing is assumed about them.
- Lower-casing is ASCII only. Python's `str.lower` also folds other letters.
- DischargeText.CalculateAge: the string birthday parsed with `fromisoformat` is not modelled; the birthday is a date or missing.
- DischargeXml.GenerateDischargeXml: the minimal XML returned on an unexpected exception is not modelled; the modelled inputs raise nowhere in the body.
- Ollama.ValidationText: this is the corrected version of the second finding. The source as written raises `KeyError` on an error reply whose message is empty; `ValidationTextAsWritten` models that.
- Ollama.GenerateStream: the exception path that yields an error line is not modelled, and neither is `UnicodeDecodeError`; lines are given as text.
- Line counters and debug output that only feed logs are left out.
- `strftime` is modelled with zero-padded fields; years beyond four digits are not treated specially.
- The content-type check of the transcription route only logs, so it is left out.
- The text of an unexpected exception in the transcription route (answered with status 500) is the case `InternalError`, without its message.
- Preprocessing: pandas loading, `groupby` and timestamp parsing are left out. A NaN cell is `None`, and a timestamp that did not parse is `None`. The lab formatter's output is given as events.
- Preprocessing.LengthHintBuckets: `int()` of a cell is done before the model, as the `WordCount` case.
- Preprocessing: progress bars, memory statistics and the `files_loaded` counter are left out; only the record and error counters are kept.
- The clock is a parameter (`now`, `today`); the rate limiter counts in microseconds.
- Preprocessing.CleanText: the ensures state only the missing case and the length bound. The relation to the discharge cleaning is stated in `CleanTextMatchesDischarge`.
- The test scripts, authentication, configuration and the distillation scripts are not part of this model.

## Findings

| source | as written | input that shows it | evidently intended | confidence | as-written member | corrected member |
|---|---|---|---|---|---|---|
| privnurse_gemma3n/backend/routes/discharge_routes.py:329-332,370 | the present illness taken from the diagnoses was already cleaned by `format_diagnosis_list` and is cleaned again, so `&` becomes `&amp;amp;` | a present-category diagnosis "A&B" | each text is escaped exactly once | not executed | DischargeXml.PresentIllnessAsWritten, DischargeXml.PresentIllnessDoubleEscaped | DischargeXml.PresentIllnessSection, DischargeXml.PresentIllnessCleanedOnce, DischargeXml.CorrectedDischargeDocument |
| privnurse_gemma3n/backend/services/ollama_service.py:133-141,187-189 | an error reply whose message is empty is falsy, so it is not returned, and `response["full_response"]` raises `KeyError` | a request that fails with an exception whose message is empty, such as `asyncio.TimeoutError` | every error reply is returned to the caller | not executed | Ollama.ValidationTextAsWritten, Ollama.EmptyErrorRaises | Ollama.ValidationText |
