/**
 * `transcribe_audio` of the audio routes: the upload-size check, the context string sent
 * with the audio, the choice of the transcription field in the speech service's reply, and
 * the removal of one boilerplate prefix from the transcription.
 *
 * The patient lookup gives the patient's name or `None`; the speech service is the parameter
 * `gemma`, from the context string to its decoded JSON reply (`None` when it returns `None`).
 */
module AudioRoutes {
  import opened Wrappers
  import opened Strings
  import opened PyJson

  /** 10 MB, the largest upload the route accepts. */
  const MaxUploadSize: int := 10 * 1024 * 1024

  /** The openings a model may put before a transcription, in the order they are tried. */
  const UnwantedPrefixes: seq<string> := [
    "Okay, here's the transcription of the audio:",
    "Here's the transcription:",
    "Here is the transcription:",
    "Transcription:",
    "Okay,",
    "Sure,",
    "The transcription is:",
    "I've transcribed the following:",
    "The audio says:"
  ]

  /** What the route answers. */
  datatype Outcome =
    | Transcribed(transcription: string)
    | HttpError(status: int, detail: string)
      /** Any other exception, answered with status 500 and the exception's text. */
    | InternalError

  // ---------------------------------------------------------------------------------------
  // The context string

  /** `f"Patient: {patient.name}"`, then the record type and the context when they are
      given and not empty. */
  function ContextText(name: string, recordType: Option<string>, context: Option<string>): string {
    "Patient: " + name
    + (if recordType.Some? && recordType.value != "" then ", Record Type: " + recordType.value else "")
    + (if context.Some? && context.value != "" then ", " + context.value else "")
  }

  /** The `context_text +=` steps. */
  method BuildContext(name: string, recordType: Option<string>, context: Option<string>)
    returns (contextText: string)
    ensures contextText == ContextText(name, recordType, context)
  {
    contextText := "Patient: " + name;
    if recordType.Some? && recordType.value != "" {
      contextText := contextText + ", Record Type: " + recordType.value;
    }
    if context.Some? && context.value != "" {
      contextText := contextText + ", " + context.value;
    }
  }

  /** The parts come in the order patient, record type, context; an empty part is the same
      as a missing one. */
  lemma ContextTextOrder(name: string, recordType: Option<string>, context: Option<string>)
    ensures StartsWith(ContextText(name, recordType, context), "Patient: " + name)
    ensures recordType.Some? && recordType.value != "" ==>
              StartsWith(ContextText(name, recordType, context), "Patient: " + name + ", Record Type: " + recordType.value)
    ensures context.Some? && context.value != "" ==>
              var c := ContextText(name, recordType, context);
              |c| >= |context.value| + 2 && c[|c| - |context.value| - 2..] == ", " + context.value
    ensures ContextText(name, Some(""), context) == ContextText(name, None, context)
    ensures ContextText(name, recordType, Some("")) == ContextText(name, recordType, None)
  {
    var c := ContextText(name, recordType, context);
    var head := "Patient: " + name;
    var withType := head + (if recordType.Some? && recordType.value != "" then ", Record Type: " + recordType.value else "");
    assert c[..|head|] == head;
    assert c[..|withType|] == withType;
  }

  // ---------------------------------------------------------------------------------------
  // The transcription field

  /** The reply fields that may hold the transcription, in the order they are tried. */
  const TranscriptKeys: seq<string> := ["generated_text", "text", "transcription"]

  /** `result.get(key, '')` for each of the keys. */
  function Fields(entries: seq<(string, Value)>): (r: seq<Value>)
    ensures |r| == |TranscriptKeys| && forall k :: 0 <= k < |r| ==> r[k] == GetOr(entries, TranscriptKeys[k], JStr(""))
  {
    seq(|TranscriptKeys|, k requires 0 <= k < |TranscriptKeys| => GetOr(entries, TranscriptKeys[k], JStr("")))
  }

  /** Python's `a or b or ...`: the first true value, or else the last one. */
  function Or(vs: seq<Value>): (r: Value)
    requires |vs| > 0
    ensures Truthy(r) <==> exists k :: 0 <= k < |vs| && Truthy(vs[k])
    ensures Truthy(r) ==> exists j :: 0 <= j < |vs| && r == vs[j] && forall i :: 0 <= i < j ==> !Truthy(vs[i])
    ensures !Truthy(r) ==> r == vs[|vs| - 1]
  {
    if |vs| == 1 || Truthy(vs[0]) then vs[0]
    else
      var r := Or(vs[1..]);
      assert forall k :: 1 <= k < |vs| ==> vs[k] == vs[1..][k - 1];
      r
  }

  /** `result.get('generated_text', '') or result.get('text', '') or
      result.get('transcription', '')`; `None` when the reply is not a dict, whose missing
      `get` raises. */
  function TranscriptOf(result: Value): (r: Option<Value>)
    ensures r.Some? <==> result.JObj?
  {
    match result
    case JObj(entries) => Some(Or(Fields(entries)))
    case _ => None
  }

  // ---------------------------------------------------------------------------------------
  // Prefix removal

  /** `text.lower().startswith(prefix.lower())`, with ASCII lower-casing. */
  predicate Matches(text: string, prefix: string) {
    StartsWith(Lower(text), Lower(prefix))
  }

  /** The first prefix from index `i` on that the text starts with, ignoring case. */
  function FirstPrefixFrom(text: string, prefixes: seq<string>, i: nat): (r: Option<nat>)
    requires i <= |prefixes|
    ensures r.Some? ==> i <= r.value < |prefixes| && Matches(text, prefixes[r.value])
                        && forall j :: i <= j < r.value ==> !Matches(text, prefixes[j])
    ensures r.None? <==> forall j :: i <= j < |prefixes| ==> !Matches(text, prefixes[j])
    decreases |prefixes| - i
  {
    if i == |prefixes| then None
    else if Matches(text, prefixes[i]) then Some(i)
    else FirstPrefixFrom(text, prefixes, i + 1)
  }

  /** The stripped transcription without the first of `prefixes` it starts with, stripped
      again; no later prefix is tried once one has been removed. */
  function CleanedTranscription(text: string, prefixes: seq<string>): string {
    var t := Strip(text);
    match FirstPrefixFrom(t, prefixes, 0)
    case None => t
    case Some(k) => Strip(t[|prefixes[k]|..])
  }

  /** The loop over `unwanted_prefixes` that breaks after the first removal. */
  method RemoveUnwantedPrefix(transcribed: string, prefixes: seq<string>) returns (cleaned: string)
    ensures cleaned == CleanedTranscription(transcribed, prefixes)
  {
    cleaned := Strip(transcribed);
    var i := 0;
    while i < |prefixes|
      invariant 0 <= i <= |prefixes|
      invariant cleaned == Strip(transcribed)
      invariant FirstPrefixFrom(cleaned, prefixes, 0) == FirstPrefixFrom(cleaned, prefixes, i)
    {
      var prefix := prefixes[i];
      if StartsWith(Lower(cleaned), Lower(prefix)) {
        cleaned := Strip(cleaned[|prefix|..]);
        break;
      }
      i := i + 1;
    }
  }

  /** No prefix of the list is empty. */
  predicate NonEmpty(prefixes: seq<string>) {
    forall j :: 0 <= j < |prefixes| ==> |prefixes[j]| > 0
  }

  lemma UnwantedPrefixesNonEmpty()
    ensures NonEmpty(UnwantedPrefixes)
  {
  }

  /** The transcription is shortened exactly when it starts with one of the prefixes, and
      otherwise it is only stripped. */
  lemma CleanedShorterIffPrefix(text: string, prefixes: seq<string>)
    requires NonEmpty(prefixes)
    ensures |CleanedTranscription(text, prefixes)| < |Strip(text)|
            <==> exists j :: 0 <= j < |prefixes| && Matches(Strip(text), prefixes[j])
    ensures (forall j :: 0 <= j < |prefixes| ==> !Matches(Strip(text), prefixes[j]))
            ==> CleanedTranscription(text, prefixes) == Strip(text)
  {
    var t := Strip(text);
    match FirstPrefixFrom(t, prefixes, 0)
    case None =>
    case Some(k) =>
      var rest := t[|prefixes[k]|..];
      assert |Strip(rest)| <= |rest| < |t|;
  }

  /** The removed text is the first matching prefix in list order: a transcription that
      opens with "Okay, here's the transcription of the audio:" loses that whole phrase, not
      only "Okay,". */
  lemma FirstPrefixRemoved(text: string, prefixes: seq<string>, k: nat)
    requires k < |prefixes| && Matches(Strip(text), prefixes[k])
    requires forall j :: 0 <= j < k ==> !Matches(Strip(text), prefixes[j])
    ensures CleanedTranscription(text, prefixes) == Strip(Strip(text)[|prefixes[k]|..])
  {
  }

  // ---------------------------------------------------------------------------------------
  // The route

  /** The part of the answer that depends on the speech service's reply, with `prefixes`
      the openings to remove. */
  function ReplyOutcome(result: Option<Value>, prefixes: seq<string>): Outcome {
    if result.None? || !Truthy(result.value) then
      HttpError(500, "Failed to transcribe audio - no response from Gemma API")
    else match TranscriptOf(result.value)
      case None => InternalError
      case Some(t) =>
        if !Truthy(t) then HttpError(500, "No transcription generated - check response format")
        else if !t.JStr? then InternalError
        else Transcribed(CleanedTranscription(t.s, prefixes))
  }

  /** Each kind of reply and its answer: no reply or a falsy one is the "no response" error;
      a truthy reply that is not a dict raises (status 500); a dict without a truthy
      transcription field is the "no transcription" error; a truthy field that is not a
      string raises; a non-empty string is transcribed with its opening removed. */
  lemma ReplyOutcomeCases(result: Option<Value>, prefixes: seq<string>)
    ensures var r := ReplyOutcome(result, prefixes);
            (result.None? || !Truthy(result.value) ==>
               r == HttpError(500, "Failed to transcribe audio - no response from Gemma API"))
            && (result.Some? && Truthy(result.value) && !result.value.JObj? ==> r == InternalError)
    ensures result.Some? && result.value.JObj? && Truthy(result.value) ==>
              var r := ReplyOutcome(result, prefixes);
              var t := Or(Fields(result.value.entries));
              (!Truthy(t) ==> r == HttpError(500, "No transcription generated - check response format"))
              && (Truthy(t) && !t.JStr? ==> r == InternalError)
              && (t.JStr? && t.s != "" ==> r == Transcribed(CleanedTranscription(t.s, prefixes)))
  {
  }

  /** A transcription comes from a dict reply, out of the first truthy field, which is a
      non-empty string, cleaned. */
  lemma TranscribedFromFirstField(result: Option<Value>, prefixes: seq<string>)
    ensures var r := ReplyOutcome(result, prefixes);
            r.Transcribed? ==> result.Some? && result.value.JObj?
                               && exists j :: 0 <= j < |TranscriptKeys|
                                    && Fields(result.value.entries)[j].JStr?
                                    && Fields(result.value.entries)[j].s != ""
                                    && r.transcription == CleanedTranscription(Fields(result.value.entries)[j].s, prefixes)
                                    && forall i :: 0 <= i < j ==> !Truthy(Fields(result.value.entries)[i])
  {
    var r := ReplyOutcome(result, prefixes);
    if r.Transcribed? {
      var vs := Fields(result.value.entries);
      var t := Or(vs);
      assert TranscriptOf(result.value) == Some(t);
      var j :| 0 <= j < |vs| && t == vs[j] && forall i :: 0 <= i < j ==> !Truthy(vs[i]);
      assert |vs| == |TranscriptKeys|;
      assert 0 <= j < |TranscriptKeys| && vs[j].JStr? && vs[j].s != ""
             && r.transcription == CleanedTranscription(vs[j].s, prefixes)
             && forall i :: 0 <= i < j ==> !Truthy(vs[i]);
    }
  }

  /** The answer of `transcribe_audio`, in the order of its checks. */
  function Transcription(patientName: Option<string>, fileSize: nat, recordType: Option<string>,
                         context: Option<string>, gemma: string -> Option<Value>): (r: Outcome)
    ensures patientName.None? <==> r == HttpError(404, "Patient not found")
    ensures patientName.Some? && fileSize > MaxUploadSize ==> r == HttpError(400, "File size exceeds 10MB limit")
    ensures r.Transcribed? ==> patientName.Some? && fileSize <= MaxUploadSize
    ensures patientName.Some? && fileSize <= MaxUploadSize ==>
              r == ReplyOutcome(gemma(ContextText(patientName.value, recordType, context)), UnwantedPrefixes)
  {
    if patientName.None? then HttpError(404, "Patient not found")
    else if fileSize > MaxUploadSize then HttpError(400, "File size exceeds 10MB limit")
    else ReplyOutcome(gemma(ContextText(patientName.value, recordType, context)), UnwantedPrefixes)
  }

  /** `transcribe_audio(audio_file, patient_id, record_type, context)` */
  method TranscribeAudio(patientName: Option<string>, fileSize: nat, recordType: Option<string>,
                         context: Option<string>, gemma: string -> Option<Value>) returns (r: Outcome)
    ensures r == Transcription(patientName, fileSize, recordType, context, gemma)
  {
    if patientName.None? {
      return HttpError(404, "Patient not found");
    }
    if fileSize > MaxUploadSize {
      return HttpError(400, "File size exceeds 10MB limit");
    }
    var contextText := BuildContext(patientName.value, recordType, context);
    var result := gemma(contextText);
    r := HandleReply(result, UnwantedPrefixes);
  }

  /** The steps after the speech service has answered. */
  method HandleReply(result: Option<Value>, prefixes: seq<string>) returns (r: Outcome)
    ensures r == ReplyOutcome(result, prefixes)
  {
    if result.None? || !Truthy(result.value) {
      return HttpError(500, "Failed to transcribe audio - no response from Gemma API");
    }
    var transcribed := TranscriptOf(result.value);
    if transcribed.None? {
      return InternalError;
    }
    if !Truthy(transcribed.value) {
      return HttpError(500, "No transcription generated - check response format");
    }
    if !transcribed.value.JStr? {
      return InternalError;
    }
    var cleaned := RemoveUnwantedPrefix(transcribed.value.s, prefixes);
    return Transcribed(cleaned);
  }

  /** A known patient's upload within the limit is transcribed whenever the speech service
      answers with a dict whose first truthy transcription field is a non-empty string: the
      answer is that string with its boilerplate opening removed. */
  lemma TranscribesKnownPatient(patientName: string, fileSize: nat, recordType: Option<string>,
                                context: Option<string>, gemma: string -> Option<Value>)
    requires fileSize <= MaxUploadSize
    requires var result := gemma(ContextText(patientName, recordType, context));
             result.Some? && result.value.JObj? && Or(Fields(result.value.entries)).JStr?
             && Or(Fields(result.value.entries)).s != ""
    ensures var result := gemma(ContextText(patientName, recordType, context));
            Transcription(Some(patientName), fileSize, recordType, context, gemma)
            == Transcribed(CleanedTranscription(Or(Fields(result.value.entries)).s, UnwantedPrefixes))
  {
    ReplyTranscribed(gemma(ContextText(patientName, recordType, context)), UnwantedPrefixes);
  }

  /** A reply with a truthy transcription field is not the empty dict. */
  lemma FieldFromNonEmptyReply(entries: seq<(string, Value)>)
    requires Truthy(Or(Fields(entries)))
    ensures entries != []
  {
  }

  /** The same on the reply alone, for any list of openings. */
  lemma ReplyTranscribed(result: Option<Value>, prefixes: seq<string>)
    requires result.Some? && result.value.JObj? && Or(Fields(result.value.entries)).JStr?
             && Or(Fields(result.value.entries)).s != ""
    ensures ReplyOutcome(result, prefixes)
            == Transcribed(CleanedTranscription(Or(Fields(result.value.entries)).s, prefixes))
  {
    FieldFromNonEmptyReply(result.value.entries);
    ReplyOutcomeCases(result, prefixes);
  }

  /** An upload over 10 MB is refused before the speech service is called: the answer does
      not depend on the service at all. */
  lemma LargeUploadNeverSent(patientName: string, fileSize: nat, recordType: Option<string>,
                             context: Option<string>, gemma1: string -> Option<Value>,
                             gemma2: string -> Option<Value>)
    requires fileSize > MaxUploadSize
    ensures Transcription(Some(patientName), fileSize, recordType, context, gemma1)
            == Transcription(Some(patientName), fileSize, recordType, context, gemma2)
  {
  }
}
