/**
 * `generate_discharge_xml` of the discharge routes: the diagnosis buckets, chief complaint,
 * present illness and the time-sorted events are put into one `<PatientEncounter>` document
 * whose length style comes from the size of its content.
 */
module DischargeXml {
  import opened Wrappers
  import opened Strings
  import opened PyJson
  import opened Events
  import opened DischargeText
  import opened DischargeDiagnosis
  import opened DischargeEvents

  /** The patient fields the builder reads: `diagnosis`, `chief_complaint`, `notes`. */
  datatype PatientInfo = PatientInfo(diagnosis: Value, chiefComplaint: Option<string>, notes: Option<string>)

  /** The discharge-note fields the builder reads: `diagnosis`, `chief_complaint`. */
  datatype NoteInfo = NoteInfo(diagnosis: Value, chiefComplaint: Option<string>)

  /** `x or ''` for an optional string. */
  function OrEmpty(s: Option<string>): string {
    s.GetOr("")
  }

  /** `f"{x}"` for an optional string: Python writes `None` as "None". */
  function Formatted(s: Option<string>): string {
    match s
    case None => "None"
    case Some(v) => v
  }

  /** The diagnosis comes from the discharge note when there is one, else from the patient. */
  function DiagnosisSource(patient: Option<PatientInfo>, note: Option<NoteInfo>): Value {
    if note.Some? then note.value.diagnosis
    else if patient.Some? then patient.value.diagnosis
    else JNull
  }

  /** The chief complaint, from the same place. */
  function ChiefComplaint(patient: Option<PatientInfo>, note: Option<NoteInfo>): Option<string> {
    if note.Some? then note.value.chiefComplaint
    else if patient.Some? then patient.value.chiefComplaint
    else Some("")
  }

  /** The present illness: the present-bucket diagnoses, or else the patient's notes. */
  function PresentIllness(fromDiagnosis: string, patient: Option<PatientInfo>): Option<string> {
    if fromDiagnosis != "" then Some(fromDiagnosis)
    else if patient.Some? then patient.value.notes
    else Some("")
  }

  /** The `<PresentIllness>` content as written: `clean_text` once more over a text that,
      when it comes from the diagnoses, `format_diagnosis_list` already cleaned. */
  function PresentIllnessAsWritten(fromDiagnosis: string, patient: Option<PatientInfo>): string {
    CleanText(PresentIllness(fromDiagnosis, patient))
  }

  /** The `<PresentIllness>` content as intended: every text is cleaned exactly once. */
  function PresentIllnessSection(fromDiagnosis: string, patient: Option<PatientInfo>): string {
    if fromDiagnosis != "" then fromDiagnosis
    else CleanText(PresentIllness(fromDiagnosis, patient))
  }

  /** With a present-bucket diagnosis holding `&`, the document as written does not decode
      to the diagnosis text: the `&amp;` of the first cleaning is escaped again. */
  lemma PresentIllnessDoubleEscaped(raw: string, patient: Option<PatientInfo>)
    requires '&' in Strip(RemovePTags(raw))
    ensures var fromDiagnosis := CleanText(Some(raw));
            Unescape(PresentIllnessAsWritten(fromDiagnosis, patient)) != Strip(RemovePTags(raw))
  {
    var u := Strip(RemovePTags(raw));
    var e := CleanText(Some(raw));
    EscapeXmlIsEscapeEach(u);
    assert raw != "";
    assert e == EscapeEach(u);
    EscapeEachLonger(u);
    CleanTwice(raw);
    UnescapeEscapeEach(e);
    assert Unescape(PresentIllnessAsWritten(e, patient)) == e;
  }

  /** The intended section is safe XML that decodes to the present-bucket diagnoses, or to
      the patient's notes when that bucket is empty. */
  lemma PresentIllnessCleanedOnce(raw: string, patient: Option<PatientInfo>)
    ensures var section := PresentIllnessSection(CleanText(Some(raw)), patient);
            XmlSafe(section)
            && (Strip(RemovePTags(raw)) != "" ==> Unescape(section) == Strip(RemovePTags(raw)))
            && (Strip(RemovePTags(raw)) == "" && patient.Some? && patient.value.notes.Some? ==>
                  Unescape(section) == Strip(RemovePTags(patient.value.notes.value)))
  {
  }

  /** All events, in the order the three formatters are called. */
  function AllEvents(nursing: seq<NursingNote>, labs: seq<LabReport>, consultations: seq<Consultation>): seq<Event> {
    FilterMap(nursing, NursingEventOf) + LabEvents(DistinctDates(labs), labs)
    + FilterMap(consultations, ConsultationEventOf)
  }

  /** The summary and the events put into the document; the length style is chosen from the
      length of the raw content. */
  function Document(d: Diagnoses, chief: Option<string>, present: Option<string>, presentSection: string,
                    eventsXml: string): string {
    var total := OrEmpty(chief) + " " + d.primary + " " + d.secondary + " " + d.past + " "
                 + Formatted(present) + " " + eventsXml;
    "<PatientEncounter summary_length_style=\"" + LengthHint(|total|) + "\">\n    <Summary>\n"
    + "        <PrimaryDiagnosis>" + d.primary + "</PrimaryDiagnosis>\n"
    + "        <SecondaryDiagnosis>" + d.secondary + "</SecondaryDiagnosis>\n"
    + "        <PastMedicalHistory>" + d.past + "</PastMedicalHistory>\n"
    + "        <ChiefComplaint>" + CleanText(Some(OrEmpty(chief))) + "</ChiefComplaint>\n"
    + "        <PresentIllness>" + presentSection + "</PresentIllness>\n"
    + "    </Summary>\n    <ChronologicalEvents>\n        " + eventsXml
    + "\n    </ChronologicalEvents>\n</PatientEncounter>"
  }

  /** The cleaned diagnoses put into the document. */
  function DocumentDiagnoses(patient: Option<PatientInfo>, note: Option<NoteInfo>,
                             parse: string -> Option<Value>, show: Value -> string): Diagnoses {
    Cleaned(RawDiagnoses(DiagnosisSource(patient, note), parse, show))
  }

  /** The events sorted by time, one XML element per line. */
  function EventsXml(nursing: seq<NursingNote>, labs: seq<LabReport>, consultations: seq<Consultation>): string {
    Join(Xmls(SortByTime(AllEvents(nursing, labs, consultations))), "\n")
  }

  /** The document `generate_discharge_xml` builds as written: the present illness is passed
      through `clean_text` once more. */
  function DischargeDocument(patient: Option<PatientInfo>, note: Option<NoteInfo>, nursing: seq<NursingNote>,
                             labs: seq<LabReport>, consultations: seq<Consultation>,
                             parse: string -> Option<Value>, show: Value -> string): string {
    var d := DocumentDiagnoses(patient, note, parse, show);
    Document(d, ChiefComplaint(patient, note), PresentIllness(d.present, patient),
             PresentIllnessAsWritten(d.present, patient), EventsXml(nursing, labs, consultations))
  }

  /** The document as intended, with every text cleaned exactly once. */
  function CorrectedDischargeDocument(patient: Option<PatientInfo>, note: Option<NoteInfo>, nursing: seq<NursingNote>,
                                      labs: seq<LabReport>, consultations: seq<Consultation>,
                                      parse: string -> Option<Value>, show: Value -> string): string {
    var d := DocumentDiagnoses(patient, note, parse, show);
    Document(d, ChiefComplaint(patient, note), PresentIllness(d.present, patient),
             PresentIllnessSection(d.present, patient), EventsXml(nursing, labs, consultations))
  }

  /** The two documents differ only when the present illness comes from the diagnoses: with
      no present-bucket diagnosis, the notes are cleaned once in both. */
  lemma DocumentsAgreeWithoutPresentDiagnosis(patient: Option<PatientInfo>, note: Option<NoteInfo>,
                                              nursing: seq<NursingNote>, labs: seq<LabReport>,
                                              consultations: seq<Consultation>,
                                              parse: string -> Option<Value>, show: Value -> string)
    requires DocumentDiagnoses(patient, note, parse, show).present == ""
    ensures DischargeDocument(patient, note, nursing, labs, consultations, parse, show)
            == CorrectedDischargeDocument(patient, note, nursing, labs, consultations, parse, show)
  {
  }

  /** `generate_discharge_xml(patient, discharge_note, nursing_notes, lab_reports, consultations)` */
  method GenerateDischargeXml(patient: Option<PatientInfo>, note: Option<NoteInfo>, nursing: seq<NursingNote>,
                              labs: seq<LabReport>, consultations: seq<Consultation>,
                              parse: string -> Option<Value>, show: Value -> string)
    returns (xml: string)
    ensures xml == DischargeDocument(patient, note, nursing, labs, consultations, parse, show)
  {
    var diagnosisData := DiagnosisSource(patient, note);
    var d := FormatDiagnosisList(diagnosisData, parse, show);
    var chief := ChiefComplaint(patient, note);
    var present := PresentIllness(d.present, patient);
    var allEvents := GatherEvents(nursing, labs, consultations);
    var sorted := SortByTime(allEvents);
    var eventsXml := Join(Xmls(sorted), "\n");
    xml := Document(d, chief, present, CleanText(present), eventsXml);
  }

  /** The three `all_events.extend` calls. */
  method GatherEvents(nursing: seq<NursingNote>, labs: seq<LabReport>, consultations: seq<Consultation>)
    returns (allEvents: seq<Event>)
    ensures allEvents == AllEvents(nursing, labs, consultations)
  {
    var nursingEvents := FormatNursingEvents(nursing);
    allEvents := nursingEvents;
    var labEvents := FormatLabEvents(labs);
    allEvents := allEvents + labEvents;
    var consultationEvents := FormatConsultationEvents(consultations);
    allEvents := allEvents + consultationEvents;
  }

  /** The chronological section lists every event once, in time order, and events with the
      same timestamp keep the order nursing, lab, consultation in which they were gathered. */
  lemma DocumentEventsOrdered(nursing: seq<NursingNote>, labs: seq<LabReport>, consultations: seq<Consultation>,
                              t: DateTime)
    ensures var all := AllEvents(nursing, labs, consultations);
            Sorted(SortByTime(all)) && multiset(SortByTime(all)) == multiset(all)
            && AtTime(SortByTime(all), t) == AtTime(all, t)
  {
    var all := AllEvents(nursing, labs, consultations);
    SortByTimeSorted(all);
    SortByTimeStable(all, t);
  }
}
