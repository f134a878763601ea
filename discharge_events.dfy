/**
 * The event formatters of the discharge routes: nursing notes, lab reports grouped by test
 * date, and consultations become `(timestamp, xml)` events for the chronological section of
 * the discharge prompt.
 */
module DischargeEvents {
  import opened Wrappers
  import opened Strings
  import opened Events
  import opened DischargeText

  /** The results of applying `f` to each item, keeping the `Some` ones in order: the shape of
      every loop below that appends an event or `continue`s. */
  function FilterMap<T, U>(xs: seq<T>, f: T -> Option<U>): seq<U> {
    if |xs| == 0 then []
    else FilterMap(xs[..|xs| - 1], f) + (match f(xs[|xs| - 1]) case Some(e) => [e] case None => [])
  }

  /** One more item adds its result, if any, at the end. */
  lemma FilterMapSnoc<T, U>(xs: seq<T>, k: nat, f: T -> Option<U>)
    requires k < |xs|
    ensures FilterMap(xs[..k + 1], f) == FilterMap(xs[..k], f) + (match f(xs[k]) case Some(e) => [e] case None => [])
  {
    assert xs[..k + 1][..k] == xs[..k];
  }

  /** The number of items that `f` keeps. */
  function CountKept<T, U>(xs: seq<T>, f: T -> Option<U>): nat {
    if |xs| == 0 then 0 else CountKept(xs[..|xs| - 1], f) + (if f(xs[|xs| - 1]).Some? then 1 else 0)
  }

  /** Each kept item gives exactly one event, and each event is the result of a kept item. */
  lemma {:induction false} FilterMapSpec<T, U>(xs: seq<T>, f: T -> Option<U>)
    ensures |FilterMap(xs, f)| == CountKept(xs, f) <= |xs|
    ensures forall e :: e in FilterMap(xs, f) ==> exists x :: x in xs && f(x) == Some(e)
  {
    if |xs| > 0 {
      var init := xs[..|xs| - 1];
      FilterMapSpec(init, f);
      forall e | e in FilterMap(xs, f) ensures exists x :: x in xs && f(x) == Some(e) {
        if e in FilterMap(init, f) {
          var x :| x in init && f(x) == Some(e);
          assert x in xs;
        } else {
          assert xs[|xs| - 1] in xs;
        }
      }
    }
  }

  /** The results for a list are the results for its pieces, in order. */
  lemma {:induction false} FilterMapAppend<T, U>(a: seq<T>, b: seq<T>, f: T -> Option<U>)
    ensures FilterMap(a + b, f) == FilterMap(a, f) + FilterMap(b, f)
    decreases |b|
  {
    if |b| == 0 {
      assert a + b == a;
    } else {
      assert (a + b)[..|a + b| - 1] == a + b[..|b| - 1];
      FilterMapAppend(a, b[..|b| - 1], f);
    }
  }

  // ---------------------------------------------------------------- nursing notes

  /** A nursing note as the route reads it: `record_time`, `record_type`, `content`. */
  datatype NursingNote = NursingNote(recordTime: Option<DateTime>, recordType: string, content: Option<string>)

  /** The SOAP element a record type is written as; an unknown type becomes a narrative note. */
  function SoapTag(recordType: string): (tag: string)
    ensures tag in ["Subjective", "Objective", "Intervention", "Evaluation", "NarrativeNote"]
    ensures tag == recordType
            <==> recordType in ["Subjective", "Objective", "Intervention", "Evaluation", "NarrativeNote"]
  {
    if recordType in ["Subjective", "Objective", "Intervention", "Evaluation"] then recordType
    else "NarrativeNote"
  }

  /** `part.replace(tag, '').strip()` */
  function FieldValue(part: string, tag: string): string
    requires |tag| > 0
  {
    Strip(ReplaceAll(part, tag, ""))
  }

  /** The index of the last part that starts with `tag`, or -1. */
  function LastIndexWith(parts: seq<string>, tag: string): (k: int)
    ensures -1 <= k < |parts|
    ensures k >= 0 ==> StartsWith(parts[k], tag)
    ensures forall j :: k < j < |parts| ==> !StartsWith(parts[j], tag)
  {
    if |parts| == 0 then -1
    else if StartsWith(parts[|parts| - 1], tag) then |parts| - 1
    else LastIndexWith(parts[..|parts| - 1], tag)
  }

  /** The field the loop over the parts leaves behind: every part starting with `tag`
      overwrites it, so the last such part wins. */
  function LastTagged(parts: seq<string>, tag: string, default: string): (r: string)
    requires |tag| > 0
  {
    if |parts| == 0 then default
    else if StartsWith(parts[|parts| - 1], tag) then FieldValue(parts[|parts| - 1], tag)
    else LastTagged(parts[..|parts| - 1], tag, default)
  }

  /** The field is taken from the last part that starts with the tag, or keeps its default
      when no part does. */
  lemma {:induction false} LastTaggedIsLast(parts: seq<string>, tag: string, default: string)
    requires |tag| > 0
    ensures var k := LastIndexWith(parts, tag);
            LastTagged(parts, tag, default) == if k < 0 then default else FieldValue(parts[k], tag)
  {
    if |parts| > 0 && !StartsWith(parts[|parts| - 1], tag) {
      LastTaggedIsLast(parts[..|parts| - 1], tag, default);
    }
  }

  /** The content of a vital sign has the structured `type:...|value:...` form. */
  predicate Structured(content: string) {
    Contains(content, "|") && Contains(content, "type:") && Contains(content, "value:")
  }

  /** The (type, value) pair a vital-sign note shows. */
  function VitalFields(content: string): (string, string) {
    if Structured(content) then
      var parts := SplitChar(content, '|');
      (LastTagged(parts, "type:", "VitalSign"), LastTagged(parts, "value:", content))
    else ("VitalSign", content)
  }

  /** The loop over the `|`-separated parts of a vital sign's cleaned content. */
  method ParseVitalSign(content: string) returns (vitalType: string, vitalValue: string)
    ensures (vitalType, vitalValue) == VitalFields(content)
  {
    vitalType, vitalValue := "VitalSign", content;
    if Contains(content, "|") && Contains(content, "type:") && Contains(content, "value:") {
      var parts := SplitChar(content, '|');
      for i := 0 to |parts|
        invariant vitalType == LastTagged(parts[..i], "type:", "VitalSign")
        invariant vitalValue == LastTagged(parts[..i], "value:", content)
      {
        assert parts[..i + 1][..i] == parts[..i];
        if StartsWith(parts[i], "type:") {
          NotStartsWith(parts[i], "value:", 0);
          vitalType := FieldValue(parts[i], "type:");
        } else if StartsWith(parts[i], "value:") {
          vitalValue := FieldValue(parts[i], "value:");
        }
      }
      assert parts[..|parts|] == parts;
    }
  }

  function NursingXml(recordType: string, content: string, time: DateTime): string {
    var stamp := "<NursingEvent timestamp=\"" + FormatDateTime(time) + "\">\n";
    if recordType == "VitalSign" then
      var (t, v) := VitalFields(content);
      stamp + "    <VitalSign type=\"" + t + "\" value=\"" + v + "\" />\n</NursingEvent>"
    else
      var tag := SoapTag(recordType);
      stamp + "    <SOAPNote>\n    <" + tag + ">" + content + "</" + tag + ">\n    </SOAPNote>\n</NursingEvent>"
  }

  /** The event one nursing note gives: none without a record time. */
  function NursingEventOf(note: NursingNote): (r: Option<Event>)
    ensures r.Some? <==> note.recordTime.Some?
    ensures r.Some? ==> r.value.time == note.recordTime.value
  {
    match note.recordTime
    case None => None
    case Some(t) => Some(Event(t, NursingXml(note.recordType, CleanText(note.content), t)))
  }

  /** `format_nursing_events(nursing_notes)` */
  method FormatNursingEvents(notes: seq<NursingNote>) returns (events: seq<Event>)
    ensures events == FilterMap(notes, NursingEventOf)
  {
    events := [];
    for i := 0 to |notes|
      invariant events == FilterMap(notes[..i], NursingEventOf)
    {
      assert notes[..i + 1][..i] == notes[..i];
      var note := notes[i];
      if note.recordTime.None? {
        continue;
      }
      var t := note.recordTime.value;
      var content := CleanText(note.content);
      var xml: string;
      if note.recordType == "VitalSign" {
        var vitalType, vitalValue := ParseVitalSign(content);
        xml := "<NursingEvent timestamp=\"" + FormatDateTime(t) + "\">\n"
          + "    <VitalSign type=\"" + vitalType + "\" value=\"" + vitalValue + "\" />\n</NursingEvent>";
      } else {
        var tag := SoapTag(note.recordType);
        xml := "<NursingEvent timestamp=\"" + FormatDateTime(t) + "\">\n"
          + "    <SOAPNote>\n    <" + tag + ">" + content + "</" + tag + ">\n    </SOAPNote>\n</NursingEvent>";
      }
      events := events + [Event(t, xml)];
    }
    assert notes[..|notes|] == notes;
  }

  /** Notes without a record time are dropped; every other note gives one event at its
      record time. */
  lemma NursingEventsKeepTimed(notes: seq<NursingNote>)
    ensures |FilterMap(notes, NursingEventOf)| <= |notes|
    ensures (forall i :: 0 <= i < |notes| ==> notes[i].recordTime.Some?)
            ==> |FilterMap(notes, NursingEventOf)| == |notes|
    ensures forall e :: e in FilterMap(notes, NursingEventOf) ==>
              exists n :: n in notes && n.recordTime == Some(e.time)
  {
    FilterMapSpec(notes, NursingEventOf);
    AllKeptCount(notes, NursingEventOf);
  }

  lemma {:induction false} AllKeptCount<T, U>(xs: seq<T>, f: T -> Option<U>)
    ensures (forall i :: 0 <= i < |xs| ==> f(xs[i]).Some?) ==> CountKept(xs, f) == |xs|
  {
    if |xs| > 0 {
      AllKeptCount(xs[..|xs| - 1], f);
    }
  }

  // ---------------------------------------------------------------- lab reports

  /** A lab report: `test_date`, `test_name`, `result_value`, `result_unit`, `flag`. */
  datatype LabReport = LabReport(testDate: Option<Date>, testName: Option<string>, resultValue: Option<string>,
                                 resultUnit: Option<string>, flag: Option<string>)

  /** A truthy optional string: present and non-empty. */
  predicate Given(s: Option<string>) {
    s.Some? && s.value != ""
  }

  /** The dates in order of first appearance: the keys of the `date_groups` dict. */
  function DistinctDates(reports: seq<LabReport>): seq<Option<Date>> {
    if |reports| == 0 then []
    else
      var init := DistinctDates(reports[..|reports| - 1]);
      var d := reports[|reports| - 1].testDate;
      if d in init then init else init + [d]
  }

  /** The reports of one date, in input order: one value of the `date_groups` dict. */
  function ReportsOn(reports: seq<LabReport>, d: Option<Date>): seq<LabReport> {
    if |reports| == 0 then []
    else ReportsOn(reports[..|reports| - 1], d)
         + (if reports[|reports| - 1].testDate == d then [reports[|reports| - 1]] else [])
  }

  /** Every report's date is a key, every key is some report's date, and no key repeats. */
  lemma {:induction false} DistinctDatesSpec(reports: seq<LabReport>)
    ensures forall i :: 0 <= i < |reports| ==> reports[i].testDate in DistinctDates(reports)
    ensures forall d :: d in DistinctDates(reports) ==> exists i :: 0 <= i < |reports| && reports[i].testDate == d
    ensures forall i, j :: 0 <= i < j < |DistinctDates(reports)| ==> DistinctDates(reports)[i] != DistinctDates(reports)[j]
  {
    if |reports| > 0 {
      var init := reports[..|reports| - 1];
      DistinctDatesSpec(init);
      forall i | 0 <= i < |reports| - 1 ensures reports[i].testDate in DistinctDates(reports) {
        assert init[i] == reports[i];
      }
      forall d | d in DistinctDates(reports)
        ensures exists i :: 0 <= i < |reports| && reports[i].testDate == d
      {
        if d in DistinctDates(init) {
          var i :| 0 <= i < |init| && init[i].testDate == d;
          assert reports[i] == init[i];
        }
      }
    }
  }

  /** The grouping loop: `date_groups[test_date].append(report)`, with the dict's insertion
      order kept in `dates`. */
  method GroupByDate(reports: seq<LabReport>) returns (dates: seq<Option<Date>>, groups: map<Option<Date>, seq<LabReport>>)
    ensures dates == DistinctDates(reports)
    ensures groups.Keys == set d | d in dates
    ensures forall d :: d in groups ==> groups[d] == ReportsOn(reports, d)
  {
    dates, groups := [], map[];
    for i := 0 to |reports|
      invariant dates == DistinctDates(reports[..i])
      invariant groups.Keys == set d | d in dates
      invariant forall d :: d in groups ==> groups[d] == ReportsOn(reports[..i], d)
      invariant forall d :: d !in groups ==> ReportsOn(reports[..i], d) == []
    {
      assert reports[..i + 1][..i] == reports[..i];
      var d := reports[i].testDate;
      if d !in groups {
        dates := dates + [d];
        groups := groups[d := []];
      }
      groups := groups[d := groups[d] + [reports[i]]];
    }
    assert reports[..|reports|] == reports;
  }

  /** One `<Item>` line: the cleaned name and value, the cleaned unit when given, and the raw
      flag in parentheses when given and not "NORMAL". */
  function LabItemXml(r: LabReport): string {
    var value := CleanText(r.resultValue)
      + (if Given(r.resultUnit) then " " + CleanText(r.resultUnit) else "")
      + (if Given(r.flag) && r.flag.value != "NORMAL" then " (" + r.flag.value + ")" else "");
    "    <Item name=\"" + CleanText(r.testName) + "\">" + value + "</Item>"
  }

  function LabItems(reports: seq<LabReport>): (r: seq<string>)
    ensures |r| == |reports| && forall i :: 0 <= i < |reports| ==> r[i] == LabItemXml(reports[i])
  {
    seq(|reports|, i requires 0 <= i < |reports| => LabItemXml(reports[i]))
  }

  /** The event of one date group, timed at midnight; a missing date raises in `strftime`
      and the group is skipped. */
  function LabGroupEvent(d: Option<Date>, group: seq<LabReport>): (r: Option<Event>)
    ensures r.Some? <==> d.Some?
    ensures r.Some? ==> r.value.time == Midnight(d.value)
  {
    match d
    case None => None
    case Some(date) =>
      Some(Event(Midnight(date),
        "<LabReportGroup date=\"" + FormatDate(date) + "\">\n" + Join(LabItems(group), "\n") + "\n</LabReportGroup>"))
  }

  /** The group events in the order of the dates. */
  function LabEvents(dates: seq<Option<Date>>, reports: seq<LabReport>): seq<Event> {
    if |dates| == 0 then []
    else
      var last := dates[|dates| - 1];
      LabEvents(dates[..|dates| - 1], reports)
      + (match LabGroupEvent(last, ReportsOn(reports, last)) case Some(e) => [e] case None => [])
  }

  /** `format_lab_events(lab_reports)` */
  method FormatLabEvents(reports: seq<LabReport>) returns (events: seq<Event>)
    ensures events == LabEvents(DistinctDates(reports), reports)
  {
    events := [];
    if |reports| == 0 {
      return;
    }
    var dates, groups := GroupByDate(reports);
    for k := 0 to |dates|
      invariant events == LabEvents(dates[..k], reports)
    {
      assert dates[..k + 1][..k] == dates[..k];
      var d := dates[k];
      assert d in groups;
      var e := LabGroupEvent(d, groups[d]);
      if e.Some? {
        events := events + [e.value];
      }
    }
    assert dates[..|dates|] == dates;
  }

  /** One event per distinct dated group, each at midnight of its date, in first-appearance
      order of the dates. */
  lemma {:induction false} LabEventsOnePerDate(dates: seq<Option<Date>>, reports: seq<LabReport>)
    requires forall d :: d in dates ==> d.Some?
    ensures |LabEvents(dates, reports)| == |dates|
    ensures forall i :: 0 <= i < |dates| ==> LabEvents(dates, reports)[i].time == Midnight(dates[i].value)
  {
    if |dates| > 0 {
      LabEventsOnePerDate(dates[..|dates| - 1], reports);
    }
  }

  /** Every report is in the group of its own date, and a group holds only reports of its date. */
  lemma {:induction false} ReportsOnSpec(reports: seq<LabReport>, d: Option<Date>)
    ensures forall r :: r in ReportsOn(reports, d) <==> r in reports && r.testDate == d
  {
    if |reports| > 0 {
      var init := reports[..|reports| - 1];
      ReportsOnSpec(init, d);
      assert reports == init + [reports[|reports| - 1]];
    }
  }

  // ---------------------------------------------------------------- consultations

  /** A consultation: `consultation_date` and `nurse_confirmation`. */
  datatype Consultation = Consultation(date: Option<DateTime>, nurseConfirmation: Option<string>)

  /** The event of one consultation: none without a date or with an empty cleaned
      confirmation. */
  function ConsultationEventOf(c: Consultation): (r: Option<Event>)
    ensures r.Some? <==>
      c.date.Some? && c.nurseConfirmation.Some? && Strip(RemovePTags(c.nurseConfirmation.value)) != ""
    ensures r.Some? ==> r.value.time == c.date.value
  {
    var content := CleanText(c.nurseConfirmation);
    if c.date.None? || content == "" then None
    else
      Some(Event(c.date.value,
        "<Consultation timestamp=\"" + FormatDateTime(c.date.value) + "\">\n    <Content>\n    "
        + content + "\n    </Content>\n</Consultation>"))
  }

  /** `format_consultation_events(consultations)` */
  method FormatConsultationEvents(consultations: seq<Consultation>) returns (events: seq<Event>)
    ensures events == FilterMap(consultations, ConsultationEventOf)
  {
    events := [];
    for i := 0 to |consultations|
      invariant events == FilterMap(consultations[..i], ConsultationEventOf)
    {
      assert consultations[..i + 1][..i] == consultations[..i];
      var c := consultations[i];
      if c.date.None? {
        continue;
      }
      var content := if c.nurseConfirmation.Some? && c.nurseConfirmation.value != "" then CleanText(c.nurseConfirmation) else "";
      if content == "" {
        continue;
      }
      events := events + [Event(c.date.value,
        "<Consultation timestamp=\"" + FormatDateTime(c.date.value) + "\">\n    <Content>\n    "
        + content + "\n    </Content>\n</Consultation>")];
    }
    assert consultations[..|consultations|] == consultations;
  }
}
