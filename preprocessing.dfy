/**
 * The training-data preprocessor: each discharge summary, with its patient's consultation
 * replies, lab events and nursing records, becomes an (input text, output text) pair. The
 * input text is a `<PatientEncounter>` prompt holding the summary fields and the time-sorted
 * events; the output text is the summary's cleaned treatment course.
 *
 * Spreadsheet loading, the grouping of rows by patient number and the parsing of timestamps
 * are pandas work done before this model starts: a missing (NaN) cell is `None`, any other
 * cell is given by its `str()`, and a timestamp that did not parse is `None`.
 */
module Preprocessing {
  import opened Wrappers
  import opened Strings
  import opened Events
  import DischargeText
  import DischargeEvents

  // ---------------------------------------------------------------------------------------
  // Text and length

  /** `TextProcessor.clean_text(text)`: the `<p>`/`</p>` tags removed and the white space
      trimmed, with no XML escaping. */
  function CleanText(text: Option<string>): (r: string)
    ensures text.None? ==> r == ""
    ensures |r| <= |text.GetOr("")|
  {
    match text
    case None => ""
    case Some(t) => Strip(RemovePTags(t))
  }

  /** A text without tags is only trimmed, and the discharge routes' `clean_text` is this
      cleaning followed by XML escaping: decoding its result gives this one's. */
  lemma CleanTextMatchesDischarge(text: Option<string>)
    ensures text.Some? && !HasPTag(text.value) ==> CleanText(text) == Strip(text.value)
    ensures DischargeText.Unescape(DischargeText.CleanText(text)) == CleanText(text)
  {
    if text.Some? {
      RemovePTagsChanges(text.value);
    }
  }

  /** The word count cell: NaN, a value whose `int()` is `n`, or one that `int()` refuses. */
  datatype WordCount = Missing | Whole(n: int) | NotNumeric

  /** `LengthClassifier.get_length_hint(word_count)` */
  function LengthHint(w: WordCount): string {
    match w
    case Whole(n) => if n < 400 then "short" else if n < 700 then "medium" else "long"
    case _ => "unknown"
  }

  /** "unknown" exactly when there is no usable count; otherwise "short" below 400 words,
      "medium" below 700 and "long" from 700 on, never shorter for a larger count. */
  lemma LengthHintBuckets(w: WordCount, a: int, b: int)
    ensures LengthHint(w) == "unknown" <==> !w.Whole?
    ensures LengthHint(Whole(a)) == "short" <==> a < 400
    ensures LengthHint(Whole(a)) == "medium" <==> 400 <= a < 700
    ensures LengthHint(Whole(a)) == "long" <==> 700 <= a
    ensures a <= b ==> DischargeText.HintRank(LengthHint(Whole(a))) <= DischargeText.HintRank(LengthHint(Whole(b)))
  {
  }

  // ---------------------------------------------------------------------------------------
  // Tagged parts

  /** `f'<{tag}>{content}</{tag}>'` */
  function Tagged(tag: string, content: string): string {
    "<" + tag + ">" + content + "</" + tag + ">"
  }

  /** The (tag, cell) pairs with each cell cleaned. */
  function CleanCells(fields: seq<(string, Option<string>)>): (r: seq<(string, string)>)
    ensures |r| == |fields| && forall k :: 0 <= k < |fields| ==> r[k] == (fields[k].0, CleanText(fields[k].1))
  {
    seq(|fields|, k requires 0 <= k < |fields| => (fields[k].0, CleanText(fields[k].1)))
  }

  /** The tagged parts of the (tag, content) pairs whose content is not empty, in order:
      the SOAP parts of a nursing record and the summary parts of a prompt. */
  function Parts(cells: seq<(string, string)>): (r: seq<string>)
    ensures |r| <= |cells|
  {
    if |cells| == 0 then []
    else
      var last := cells[|cells| - 1];
      Parts(cells[..|cells| - 1]) + (if last.1 != "" then [Tagged(last.0, last.1)] else [])
  }

  /** The parts of a list are the parts of its pieces, in order. */
  lemma {:induction false} PartsAppend(a: seq<(string, string)>, b: seq<(string, string)>)
    ensures Parts(a + b) == Parts(a) + Parts(b)
    decreases |b|
  {
    if |b| == 0 {
      assert a + b == a;
    } else {
      assert (a + b)[..|a + b| - 1] == a + b[..|b| - 1];
      PartsAppend(a, b[..|b| - 1]);
    }
  }

  /** There are no parts exactly when every content is empty. */
  lemma {:induction false} PartsEmpty(cells: seq<(string, string)>)
    ensures Parts(cells) == [] <==> forall k :: 0 <= k < |cells| ==> cells[k].1 == ""
  {
    if |cells| > 0 {
      var init := cells[..|cells| - 1];
      PartsEmpty(init);
      assert forall k :: 0 <= k < |init| ==> init[k] == cells[k];
    }
  }

  /** The loop that appends a tagged part for each non-empty cleaned cell. */
  method CollectParts(fields: seq<(string, Option<string>)>) returns (parts: seq<string>)
    ensures parts == Parts(CleanCells(fields))
  {
    ghost var cells := CleanCells(fields);
    parts := [];
    for i := 0 to |fields|
      invariant parts == Parts(cells[..i])
    {
      assert cells[..i + 1][..i] == cells[..i];
      var content := CleanText(fields[i].1);
      assert cells[..i + 1][i] == (fields[i].0, content);
      if content != "" {
        parts := parts + [Tagged(fields[i].0, content)];
      }
    }
    assert cells[..|fields|] == cells;
  }

  // ---------------------------------------------------------------------------------------
  // Nursing records

  /** A nursing row: its timestamp, the vital-sign category and reading, and the five SOAP
      cells `RECORD_S` … `RECORD_N` (a missing column reads as ""). */
  datatype NursingRow = NursingRow(timestamp: Option<DateTime>, category: Option<string>, reading: Option<string>,
                                   s: Option<string>, o: Option<string>, i: Option<string>,
                                   e: Option<string>, n: Option<string>)

  /** The SOAP cells with their tags, in the order S, O, I, E, N. */
  function SoapFields(row: NursingRow): seq<(string, Option<string>)> {
    [("Subjective", row.s), ("Objective", row.o), ("Intervention", row.i),
     ("Evaluation", row.e), ("NarrativeNote", row.n)]
  }

  predicate HasVitalSign(row: NursingRow) {
    row.category.Some? && row.reading.Some?
  }

  /** `<VitalSign type="..." value="..." />`: the category as it is, the reading cleaned. */
  function VitalSignXml(category: string, reading: Option<string>): string {
    "<VitalSign type=\"" + category + "\" value=\"" + CleanText(reading) + "\" />"
  }

  /** `<SOAPNote>` around the SOAP parts put together. */
  function SoapNoteXml(soapParts: seq<string>): string {
    "<SOAPNote>\n" + Join(soapParts, "") + "\n</SOAPNote>"
  }

  /** The vital sign, then the SOAP note, each when there is one. */
  function NursingParts(row: NursingRow): seq<string> {
    var soap := Parts(CleanCells(SoapFields(row)));
    (if HasVitalSign(row) then [VitalSignXml(row.category.value, row.reading)] else [])
    + (if soap != [] then [SoapNoteXml(soap)] else [])
  }

  function NursingXml(time: DateTime, xmlParts: seq<string>): string {
    "<NursingEvent timestamp=\"" + FormatDateTime(time) + "\">\n" + Join(xmlParts, "\n") + "\n</NursingEvent>"
  }

  /** The event of one nursing row, at the row's timestamp. */
  function NursingEventOf(row: NursingRow): (r: Option<Event>)
    ensures r.Some? ==> row.timestamp.Some? && r.value.time == row.timestamp.value
  {
    if row.timestamp.None? then None
    else
      var xmlParts := NursingParts(row);
      if xmlParts == [] then None else Some(Event(row.timestamp.value, NursingXml(row.timestamp.value, xmlParts)))
  }

  /** A row without a timestamp is dropped, and so is a row with neither a vital sign nor a
      non-empty cleaned SOAP cell; every other row gives an event. */
  lemma NursingEventKept(row: NursingRow)
    ensures NursingEventOf(row).Some? <==>
              row.timestamp.Some?
              && (HasVitalSign(row) || exists k :: 0 <= k < 5 && CleanText(SoapFields(row)[k].1) != "")
  {
    var cells := CleanCells(SoapFields(row));
    PartsEmpty(cells);
    assert forall k :: 0 <= k < 5 ==> cells[k].1 == CleanText(SoapFields(row)[k].1);
  }

  /** The vital sign and the SOAP note of one nursing row, as the loop body builds them. */
  method CollectNursingParts(row: NursingRow) returns (xmlParts: seq<string>)
    ensures xmlParts == NursingParts(row)
  {
    ghost var soap := Parts(CleanCells(SoapFields(row)));
    var vital: seq<string> := [];
    if row.category.Some? && row.reading.Some? {
      vital := [VitalSignXml(row.category.value, row.reading)];
    }
    var soapParts := CollectParts(SoapFields(row));
    assert soapParts == soap;
    var note: seq<string> := [];
    if soapParts != [] {
      note := [SoapNoteXml(soapParts)];
    }
    xmlParts := vital + note;
  }

  /** The body of the loop over the valid nursing rows. */
  method NursingRowEvent(row: NursingRow) returns (r: Option<Event>)
    ensures r == NursingEventOf(row)
  {
    if row.timestamp.None? {
      return None;
    }
    var xmlParts := CollectNursingParts(row);
    if xmlParts != [] {
      r := Some(Event(row.timestamp.value, NursingXml(row.timestamp.value, xmlParts)));
    } else {
      r := None;
    }
  }

  /** `EventFormatter.format_nursing_events(df_nursing)` */
  method FormatNursingEvents(rows: seq<NursingRow>) returns (events: seq<Event>)
    ensures events == DischargeEvents.FilterMap(rows, NursingEventOf)
  {
    events := [];
    for k := 0 to |rows|
      invariant events == DischargeEvents.FilterMap(rows[..k], NursingEventOf)
    {
      assert rows[..k + 1][..k] == rows[..k];
      var r := NursingRowEvent(rows[k]);
      if r.Some? {
        events := events + [r.value];
      }
    }
    assert rows[..|rows|] == rows;
  }

  // ---------------------------------------------------------------------------------------
  // Consultation replies

  /** A consultation row: the reply time and the reply text. */
  datatype ConsultRow = ConsultRow(replyTime: Option<DateTime>, reply: Option<string>)

  function ConsultXml(time: DateTime, content: string): string {
    "<Consultation timestamp=\"" + FormatDateTime(time) + "\">\n    <Content>\n    " + content
    + "\n    </Content>\n</Consultation>"
  }

  /** The event of one reply: none without a reply time or with an empty cleaned reply. */
  function ConsultEventOf(row: ConsultRow): (r: Option<Event>)
    ensures r.Some? <==> row.replyTime.Some? && CleanText(row.reply) != ""
    ensures r.Some? ==> r.value == Event(row.replyTime.value, ConsultXml(row.replyTime.value, CleanText(row.reply)))
  {
    if row.replyTime.None? then None
    else
      var content := CleanText(row.reply);
      if content != "" then Some(Event(row.replyTime.value, ConsultXml(row.replyTime.value, content))) else None
  }

  /** `EventFormatter.format_consult_events(df_consult)` */
  method FormatConsultEvents(rows: seq<ConsultRow>) returns (events: seq<Event>)
    ensures events == DischargeEvents.FilterMap(rows, ConsultEventOf)
  {
    events := [];
    for k := 0 to |rows|
      invariant events == DischargeEvents.FilterMap(rows[..k], ConsultEventOf)
    {
      assert rows[..k + 1][..k] == rows[..k];
      var row := rows[k];
      if row.replyTime.None? {
        continue;
      }
      var content := CleanText(row.reply);
      if content != "" {
        events := events + [Event(row.replyTime.value, ConsultXml(row.replyTime.value, content))];
      }
    }
    assert rows[..|rows|] == rows;
  }

  // ---------------------------------------------------------------------------------------
  // Patient records

  /** A discharge-summary row: the word count, the five summary cells and the treatment
      course that is the training target. */
  datatype SummaryRow = SummaryRow(words: WordCount, primary: Option<string>, secondary: Option<string>,
                                   past: Option<string>, chief: Option<string>, present: Option<string>,
                                   treatment: Option<string>)

  /** The summary cells with their tags, in the order of the prompt. */
  function SummaryFields(row: SummaryRow): seq<(string, Option<string>)> {
    [("PrimaryDiagnosis", row.primary), ("SecondaryDiagnosis", row.secondary),
     ("PastMedicalHistory", row.past), ("ChiefComplaint", row.chief), ("PresentIllness", row.present)]
  }

  /** The prompt template of `_build_input_text`. */
  function InputText(hint: string, summaryParts: seq<string>, eventsXml: string): string {
    "<PatientEncounter summary_length_style=\"" + hint + "\">\n    <Summary>\n        "
    + Join(summaryParts, "\n") + "\n    </Summary>\n    <ChronologicalEvents>\n        "
    + eventsXml + "\n    </ChronologicalEvents>\n</PatientEncounter>"
  }

  /** `PatientDataProcessor._build_input_text(summary_row, events_xml, length_hint)` */
  method BuildInputText(row: SummaryRow, eventsXml: string, hint: string) returns (text: string)
    ensures text == InputText(hint, Parts(CleanCells(SummaryFields(row))), eventsXml)
  {
    var summaryParts := CollectParts(SummaryFields(row));
    text := InputText(hint, summaryParts, eventsXml);
  }

  /** A patient's rows of one kind: none, the rows, or rows whose formatter raises. */
  datatype Group<T> = Absent | Rows(rows: seq<T>) | Raises

  /** A summary row with its patient's groups; lab events are taken as already formatted. */
  datatype PatientData = PatientData(summary: SummaryRow, consults: Group<ConsultRow>, labs: Group<Event>,
                                     nursing: Group<NursingRow>)

  datatype TrainingRecord = TrainingRecord(inputText: string, outputText: string)

  function GroupEvents<T>(g: Group<T>, f: T -> Option<Event>): seq<Event> {
    if g.Rows? then DischargeEvents.FilterMap(g.rows, f) else []
  }

  /** The events in the order the formatters run: consultations, labs, nursing. */
  function AllEvents(p: PatientData): seq<Event> {
    GroupEvents(p.consults, ConsultEventOf) + (if p.labs.Rows? then p.labs.rows else [])
    + GroupEvents(p.nursing, NursingEventOf)
  }

  /** The number of formatters that raise for the patient. */
  function Failures(p: PatientData): nat {
    (if p.consults.Raises? then 1 else 0) + (if p.labs.Raises? then 1 else 0)
    + (if p.nursing.Raises? then 1 else 0)
  }

  /** The pair built from a summary row and the patient's events, or `None` when the
      cleaned treatment course is empty. */
  function RecordFrom(summary: SummaryRow, allEvents: seq<Event>): (r: Option<TrainingRecord>)
    ensures r.Some? <==> CleanText(summary.treatment) != ""
    ensures r.Some? ==> r.value.outputText == CleanText(summary.treatment)
  {
    var eventsXml := Join(Xmls(SortByTime(allEvents)), "\n");
    var inputText := InputText(LengthHint(summary.words), Parts(CleanCells(SummaryFields(summary))), eventsXml);
    var outputText := CleanText(summary.treatment);
    if outputText != "" then Some(TrainingRecord(inputText, outputText)) else None
  }

  /** What `process_patient_record` returns for a patient. */
  function RecordOf(p: PatientData): Option<TrainingRecord> {
    RecordFrom(p.summary, AllEvents(p))
  }

  /** The prompt's events are every event of the patient once, in time order, and events
      with the same timestamp keep the order consultations, labs, nursing. */
  lemma RecordEventsOrdered(p: PatientData, t: DateTime)
    ensures Sorted(SortByTime(AllEvents(p))) && multiset(SortByTime(AllEvents(p))) == multiset(AllEvents(p))
    ensures AtTime(SortByTime(AllEvents(p)), t) == AtTime(AllEvents(p), t)
  {
    SortByTimeSorted(AllEvents(p));
    SortByTimeStable(AllEvents(p), t);
  }

  /** The summary holds a part for each non-empty cleaned cell, in the order primary,
      secondary, past history, chief complaint, present illness. */
  lemma SummaryPartsInOrder(cells: seq<(string, string)>)
    requires |cells| == 5
    ensures Parts(cells) == Parts([cells[0]]) + Parts([cells[1]]) + Parts([cells[2]]) + Parts([cells[3]]) + Parts([cells[4]])
  {
    PartsAppend(cells[..1], cells[1..2]);
    PartsAppend(cells[..2], cells[2..3]);
    PartsAppend(cells[..3], cells[3..4]);
    PartsAppend(cells[..4], cells[4..]);
    assert cells[..2] == cells[..1] + cells[1..2];
    assert cells[..3] == cells[..2] + cells[2..3];
    assert cells[..4] == cells[..3] + cells[3..4];
    assert cells == cells[..4] + cells[4..];
    assert cells[..1] == [cells[0]] && cells[1..2] == [cells[1]] && cells[2..3] == [cells[2]]
           && cells[3..4] == [cells[3]] && cells[4..] == [cells[4]];
  }

  /** The counters of the run. */
  class ProgressTracker {
    var recordsProcessed: nat
    var errors: nat

    constructor ()
      ensures recordsProcessed == 0 && errors == 0
    {
      recordsProcessed := 0;
      errors := 0;
    }
  }

  /** The loop over the three formatters: each group's events are added, and each group
      whose formatter raises adds one error instead. */
  method GatherPatientEvents(tracker: ProgressTracker, p: PatientData) returns (allEvents: seq<Event>)
    modifies tracker
    ensures allEvents == AllEvents(p)
    ensures tracker.recordsProcessed == old(tracker.recordsProcessed)
    ensures tracker.errors == old(tracker.errors) + Failures(p)
  {
    var consultEvents: seq<Event> := [];
    if p.consults.Rows? {
      consultEvents := FormatConsultEvents(p.consults.rows);
    }
    var labEvents: seq<Event> := [];
    if p.labs.Rows? {
      labEvents := p.labs.rows;
    }
    var nursingEvents: seq<Event> := [];
    if p.nursing.Rows? {
      nursingEvents := FormatNursingEvents(p.nursing.rows);
    }
    allEvents := consultEvents + labEvents + nursingEvents;
    if p.consults.Raises? {
      tracker.errors := tracker.errors + 1;
    }
    if p.labs.Raises? {
      tracker.errors := tracker.errors + 1;
    }
    if p.nursing.Raises? {
      tracker.errors := tracker.errors + 1;
    }
  }

  /** `PatientDataProcessor.process_patient_record(summary_row, grouped_data)` */
  method ProcessPatientRecord(tracker: ProgressTracker, p: PatientData) returns (r: Option<TrainingRecord>)
    modifies tracker
    ensures r == RecordOf(p)
    ensures tracker.recordsProcessed == old(tracker.recordsProcessed) + 1
    ensures tracker.errors == old(tracker.errors) + Failures(p)
  {
    var allEvents := GatherPatientEvents(tracker, p);
    var sorted := SortByTime(allEvents);
    var eventsXml := Join(Xmls(sorted), "\n");
    var hint := LengthHint(p.summary.words);
    var inputText := BuildInputText(p.summary, eventsXml, hint);
    var outputText := CleanText(p.summary.treatment);
    tracker.recordsProcessed := tracker.recordsProcessed + 1;
    if outputText != "" {
      r := Some(TrainingRecord(inputText, outputText));
    } else {
      r := None;
    }
  }

  // ---------------------------------------------------------------------------------------
  // Batches

  /** The records of the patients, in order, without the `None`s. */
  function Records(ps: seq<PatientData>): seq<TrainingRecord> {
    DischargeEvents.FilterMap(ps, RecordOf)
  }

  function TotalFailures(ps: seq<PatientData>): nat {
    if |ps| == 0 then 0 else TotalFailures(ps[..|ps| - 1]) + Failures(ps[|ps| - 1])
  }

  lemma {:induction false} TotalFailuresAppend(a: seq<PatientData>, b: seq<PatientData>)
    ensures TotalFailures(a + b) == TotalFailures(a) + TotalFailures(b)
    decreases |b|
  {
    if |b| == 0 {
      assert a + b == a;
    } else {
      assert (a + b)[..|a + b| - 1] == a + b[..|b| - 1];
      TotalFailuresAppend(a, b[..|b| - 1]);
    }
  }

  /** Every record of the data set has a non-empty output text, and there is at most one per
      summary row. */
  lemma RecordsHaveOutput(ps: seq<PatientData>)
    ensures |Records(ps)| <= |ps|
    ensures forall x :: x in Records(ps) ==> x.outputText != ""
  {
    DischargeEvents.FilterMapSpec(ps, RecordOf);
  }

  /** One more summary row adds its record, if any. */
  lemma RecordsSnoc(ps: seq<PatientData>, k: nat, r: Option<TrainingRecord>)
    requires k < |ps| && r == RecordOf(ps[k])
    ensures Records(ps[..k + 1]) == Records(ps[..k]) + (if r.Some? then [r.value] else [])
  {
    DischargeEvents.FilterMapSnoc(ps, k, RecordOf);
  }

  /** One more summary row adds its failures. */
  lemma FailuresSnoc(ps: seq<PatientData>, k: nat)
    requires k < |ps|
    ensures TotalFailures(ps[..k + 1]) == TotalFailures(ps[..k]) + Failures(ps[k])
  {
    assert ps[..k + 1][..k] == ps[..k];
  }

  /** One pass of the batch loop: the row's record, if any, is appended to the results. */
  method ProcessNext(tracker: ProgressTracker, batch: seq<PatientData>, k: nat, results: seq<TrainingRecord>)
    returns (next: seq<TrainingRecord>)
    requires k < |batch| && results == Records(batch[..k])
    modifies tracker
    ensures next == Records(batch[..k + 1])
    ensures tracker.recordsProcessed == old(tracker.recordsProcessed) + 1
    ensures tracker.errors == old(tracker.errors) + Failures(batch[k])
  {
    var r := ProcessPatientRecord(tracker, batch[k]);
    RecordsSnoc(batch, k, r);
    next := results;
    if r.Some? {
      next := next + [r.value];
    }
  }

  /** `process_patients_batch(processor, summaries_batch, grouped_data, ...)` */
  method ProcessPatientsBatch(tracker: ProgressTracker, batch: seq<PatientData>) returns (results: seq<TrainingRecord>)
    modifies tracker
    ensures results == Records(batch)
    ensures tracker.recordsProcessed == old(tracker.recordsProcessed) + |batch|
    ensures tracker.errors == old(tracker.errors) + TotalFailures(batch)
  {
    results := [];
    for k := 0 to |batch|
      invariant results == Records(batch[..k])
      invariant tracker.recordsProcessed == old(tracker.recordsProcessed) + k
      invariant tracker.errors == old(tracker.errors) + TotalFailures(batch[..k])
    {
      results := ProcessNext(tracker, batch, k, results);
      FailuresSnoc(batch, k);
    }
    assert batch[..|batch|] == batch;
  }

  // `main` cuts the summaries into batches of `batch_size = 100` rows; the size is written
  // out as a literal below so that the batch bounds stay linear arithmetic.

  /** `(total_records + batch_size - 1) // batch_size` */
  function BatchCount(total: nat): nat {
    (total + 99) / 100
  }

  function BatchStart(b: nat): nat {
    b * 100
  }

  /** `min((batch_num + 1) * batch_size, total_records)` */
  function BatchEnd(b: nat, total: nat): nat {
    if (b + 1) * 100 < total then (b + 1) * 100 else total
  }

  /** The batches cut `[0, total)` into consecutive, non-empty ranges of at most 100
      rows: the count is the ceiling of `total / 100`, each batch starts where the previous
      one ended, and the last one ends at `total`. */
  lemma BatchesPartition(total: nat)
    ensures BatchCount(total) * 100 >= total && (BatchCount(total) - 1) * 100 < total
    ensures forall b :: 0 <= b < BatchCount(total) ==>
              BatchStart(b) < BatchEnd(b, total) && BatchEnd(b, total) - BatchStart(b) <= 100
    ensures forall b :: 0 <= b < BatchCount(total) - 1 ==> BatchEnd(b, total) == BatchStart(b + 1)
    ensures BatchCount(total) > 0 ==> BatchEnd(BatchCount(total) - 1, total) == total
  {
  }

  /** The rows the batches before batch `b` have covered. */
  function Done(b: nat, total: nat): nat {
    if b == 0 then 0 else BatchEnd(b - 1, total)
  }

  /** Batch `b` starts where the batches before it stopped and stays within the rows. */
  lemma BatchStep(b: nat, total: nat)
    requires b < BatchCount(total)
    ensures BatchStart(b) == Done(b, total) <= BatchEnd(b, total) <= total
  {
    BatchesPartition(total);
  }

  /** The batches together stop at the last row. */
  lemma BatchesEnd(total: nat)
    ensures Done(BatchCount(total), total) == total
  {
    BatchesPartition(total);
  }

  /** The records of a prefix extended by the next slice. */
  lemma RecordsExtend(ps: seq<PatientData>, i: nat, j: nat)
    requires i <= j <= |ps|
    ensures Records(ps[..j]) == Records(ps[..i]) + Records(ps[i..j])
  {
    assert ps[..i] + ps[i..j] == ps[..j];
    DischargeEvents.FilterMapAppend(ps[..i], ps[i..j], RecordOf);
  }

  /** The failures of a prefix extended by the next slice. */
  lemma FailuresExtend(ps: seq<PatientData>, i: nat, j: nat)
    requires i <= j <= |ps|
    ensures TotalFailures(ps[..j]) == TotalFailures(ps[..i]) + TotalFailures(ps[i..j])
  {
    assert ps[..i] + ps[i..j] == ps[..j];
    TotalFailuresAppend(ps[..i], ps[i..j]);
  }

  /** One pass of the batch loop: the records and failures of batch `b` follow those of
      the batches before it. */
  method ProcessBatchAt(tracker: ProgressTracker, patients: seq<PatientData>, b: nat, finalData: seq<TrainingRecord>)
    returns (next: seq<TrainingRecord>)
    requires b < BatchCount(|patients|) && finalData == Records(patients[..Done(b, |patients|)])
    modifies tracker
    ensures Done(b + 1, |patients|) <= |patients|
    ensures next == Records(patients[..Done(b + 1, |patients|)])
    ensures tracker.recordsProcessed + Done(b, |patients|) == old(tracker.recordsProcessed) + Done(b + 1, |patients|)
    ensures tracker.errors + TotalFailures(patients[..Done(b, |patients|)])
            == old(tracker.errors) + TotalFailures(patients[..Done(b + 1, |patients|)])
  {
    var total := |patients|;
    var startIdx := b * 100;
    var endIdx := if (b + 1) * 100 < total then (b + 1) * 100 else total;
    BatchStep(b, total);
    var batchResults := ProcessPatientsBatch(tracker, patients[startIdx..endIdx]);
    RecordsExtend(patients, startIdx, endIdx);
    FailuresExtend(patients, startIdx, endIdx);
    next := finalData + batchResults;
  }

  /** The batch loop of `main`: the records of all batches, in order. */
  method BuildDataset(tracker: ProgressTracker, patients: seq<PatientData>) returns (finalData: seq<TrainingRecord>)
    modifies tracker
    ensures finalData == Records(patients)
    ensures tracker.recordsProcessed == old(tracker.recordsProcessed) + |patients|
    ensures tracker.errors == old(tracker.errors) + TotalFailures(patients)
  {
    var total := |patients|;
    var totalBatches := (total + 99) / 100;
    finalData := [];
    for b := 0 to totalBatches
      invariant Done(b, total) <= total
      invariant finalData == Records(patients[..Done(b, total)])
      invariant tracker.recordsProcessed == old(tracker.recordsProcessed) + Done(b, total)
      invariant tracker.errors == old(tracker.errors) + TotalFailures(patients[..Done(b, total)])
    {
      finalData := ProcessBatchAt(tracker, patients, b, finalData);
    }
    BatchesEnd(total);
    assert patients[..total] == patients;
  }
}
