/**
 * The input normalisers of the request schemas: the mapping of old nursing record types onto
 * the six SOAP categories, and the coercion of a stored diagnosis field into a list.
 *
 * `json.loads` is the parameter `parse`, and the pydantic constructor `Diagnosis(**item)` is
 * the parameter `makeDiagnosis`, which gives `None` when validation raises.
 */
module Schemas {
  import opened Wrappers
  import opened PyJson

  /** The record types a nursing note may have. */
  const ValidTypes: seq<string> :=
    ["Subjective", "Objective", "Intervention", "Evaluation", "NarrativeNote", "VitalSign"]

  /** The entries of the validator's mapping table for the old names, in two spellings. */
  const OldNames: seq<(string, string)> := [
    ("Vital Signs", "VitalSign"), ("vital signs", "VitalSign"), ("VitalSigns", "VitalSign"),
    ("Assessment", "Objective"), ("assessment", "Objective"),
    ("Patient Education", "Intervention"), ("patient education", "Intervention"),
    ("Medication Administration", "Intervention"), ("medication administration", "Intervention"),
    ("Procedure", "Intervention"), ("procedure", "Intervention"),
    ("Treatment", "Intervention"), ("treatment", "Intervention"),
    ("Care Plan", "Intervention"), ("care plan", "Intervention"),
    ("Observation", "Objective"), ("observation", "Objective"),
    ("Patient Complaint", "Subjective"), ("patient complaint", "Subjective"),
    ("Patient Response", "Evaluation"), ("patient response", "Evaluation"),
    ("Shift Report", "NarrativeNote"), ("shift report", "NarrativeNote"),
    ("Progress Note", "NarrativeNote"), ("progress note", "NarrativeNote"),
    ("General Note", "NarrativeNote"), ("general note", "NarrativeNote"),
    ("Discharge Planning", "Intervention"), ("discharge planning", "Intervention"),
    ("Incident Report", "NarrativeNote"), ("incident report", "NarrativeNote")
  ]

  /** The entries that map each name of a list to itself. */
  function SelfEntries(names: seq<string>): (r: seq<(string, string)>)
    ensures |r| == |names| && forall i :: 0 <= i < |names| ==> r[i] == (names[i], names[i])
  {
    seq(|names|, i requires 0 <= i < |names| => (names[i], names[i]))
  }

  /** The whole table: the old names, then the valid types mapped to themselves. */
  const RecordTypeMapping: seq<(string, string)> := OldNames + SelfEntries(ValidTypes)

  /** `mapping.get(key)` over the entries of a dict display: the last entry of the key wins. */
  function Lookup(table: seq<(string, string)>, key: string): (r: Option<string>)
    ensures r.Some? ==> exists i :: 0 <= i < |table| && table[i] == (key, r.value)
    ensures r.None? <==> forall i :: 0 <= i < |table| ==> table[i].0 != key
  {
    if |table| == 0 then None
    else if table[|table| - 1].0 == key then Some(table[|table| - 1].1)
    else Lookup(table[..|table| - 1], key)
  }

  /** `mapping.get(v, 'NarrativeNote')` */
  function Mapped(v: string): string {
    Lookup(RecordTypeMapping, v).GetOr("NarrativeNote")
  }

  /** `NursingNoteCreate.validate_and_map_record_type(v)`: the mapped type, or the
      `ValueError` raised when it is not a valid type. */
  function MapRecordType(v: string): Result<string, string> {
    var mapped := Mapped(v);
    if mapped !in ValidTypes then Failure("Invalid record type: " + v) else Success(mapped)
  }

  /** Every value of the table is a valid type. */
  lemma MappingValuesValid()
    ensures forall i :: 0 <= i < |RecordTypeMapping| ==> RecordTypeMapping[i].1 in ValidTypes
  {
  }

  /** The validator never raises: every input maps to one of the six valid types, and one
      that is not in the table maps to "NarrativeNote". */
  lemma MapRecordTypeTotal(v: string)
    ensures MapRecordType(v).Success? && MapRecordType(v).value in ValidTypes
    ensures (forall i :: 0 <= i < |RecordTypeMapping| ==> RecordTypeMapping[i].0 != v) ==>
              MapRecordType(v) == Success("NarrativeNote")
  {
    MappingValuesValid();
  }

  /** A later entry of the key hides the earlier ones. */
  lemma LookupAppend(a: seq<(string, string)>, b: seq<(string, string)>, key: string)
    ensures Lookup(a + b, key) == if Lookup(b, key).Some? then Lookup(b, key) else Lookup(a, key)
    decreases |b|
  {
    if |b| == 0 {
      assert a + b == a;
    } else {
      assert (a + b)[..|a + b| - 1] == a + b[..|b| - 1];
      LookupAppend(a, b[..|b| - 1], key);
    }
  }

  /** A name of the list is found among its self entries. */
  lemma LookupSelf(names: seq<string>, v: string)
    requires v in names
    ensures Lookup(SelfEntries(names), v) == Some(v)
  {
    var r := Lookup(SelfEntries(names), v);
    var i :| 0 <= i < |names| && names[i] == v;
    assert SelfEntries(names)[i].0 == v;
  }

  /** The six valid types map to themselves. */
  lemma ValidTypesFixed(v: string)
    requires v in ValidTypes
    ensures MapRecordType(v) == Success(v)
  {
    LookupSelf(ValidTypes, v);
    LookupAppend(OldNames, SelfEntries(ValidTypes), v);
  }

  /** Mapping a mapped type again changes nothing. */
  lemma MapRecordTypeIdempotent(v: string)
    ensures MapRecordType(v).Success? && MapRecordType(MapRecordType(v).value) == MapRecordType(v)
  {
    MapRecordTypeTotal(v);
    ValidTypesFixed(MapRecordType(v).value);
  }

  /** `NursingNoteUpdate.validate_and_map_record_type(v)`: a missing type stays missing,
      any other goes through the same mapping as on creation. */
  function MapRecordTypeUpdate(v: Option<string>): (r: Result<Option<string>, string>)
    ensures v.None? ==> r == Success(None)
    ensures v.Some? ==> (r.Success? <==> MapRecordType(v.value).Success?)
    ensures v.Some? && r.Success? ==> r.value == Some(MapRecordType(v.value).value)
  {
    match v
    case None => Success(None)
    case Some(s) =>
      match MapRecordType(s)
      case Success(t) => Success(Some(t))
      case Failure(e) => Failure(e)
  }

  /** The list comprehension over the decoded items: each object goes through the
      `Diagnosis` constructor, anything else is kept; `None` when a constructor raises. */
  function DiagnosisItems(items: seq<Value>, makeDiagnosis: seq<(string, Value)> -> Option<Value>)
    : (r: Option<seq<Value>>)
    ensures r.Some? ==> |r.value| == |items|
    ensures r.Some? ==> forall k :: 0 <= k < |items| && !items[k].JObj? ==> r.value[k] == items[k]
    ensures r.Some? ==> forall k :: 0 <= k < |items| && items[k].JObj? ==>
              makeDiagnosis(items[k].entries) == Some(r.value[k])
    ensures r.None? <==> exists k :: 0 <= k < |items| && items[k].JObj? && makeDiagnosis(items[k].entries).None?
  {
    if |items| == 0 then Some([])
    else
      var init := DiagnosisItems(items[..|items| - 1], makeDiagnosis);
      var last := items[|items| - 1];
      var item := if last.JObj? then makeDiagnosis(last.entries) else Some(last);
      assert forall k :: 0 <= k < |items| - 1 ==> items[..|items| - 1][k] == items[k];
      if init.Some? && item.Some? then Some(init.value + [item.value]) else None
  }

  /** `DischargeNoteResponse.parse_diagnosis(v)` */
  function ParseDiagnosis(v: Value, parse: string -> Option<Value>,
                          makeDiagnosis: seq<(string, Value)> -> Option<Value>): (r: seq<Value>)
    ensures v.JArr? ==> r == v.items
    ensures !v.JArr? && !v.JStr? ==> r == []
    ensures v.JStr? && (parse(v.s).None? || !parse(v.s).value.JArr?) ==> r == []
    ensures v.JStr? && parse(v.s).Some? && parse(v.s).value.JArr? ==>
              var items := parse(v.s).value.items;
              (DiagnosisItems(items, makeDiagnosis).Some? ==> r == DiagnosisItems(items, makeDiagnosis).value)
              && (DiagnosisItems(items, makeDiagnosis).None? ==> r == [])
  {
    match v
    case JStr(s) =>
      (match parse(s)
       case Some(JArr(items)) =>
         (match DiagnosisItems(items, makeDiagnosis)
          case Some(ds) => ds
          case None => [])
       case _ => [])
    case JArr(items) => items
    case _ => []
  }
}
