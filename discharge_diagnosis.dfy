/**
 * `format_diagnosis_list` of the discharge routes: a diagnosis list (stored as a JSON string
 * or as a list) is split into the primary, secondary, past and present buckets, each bucket
 * is joined with "; ", and the four strings are cleaned for XML.
 *
 * Python's `str()` of a non-string value is the parameter `show` (the `repr` of lists,
 * dicts, numbers and booleans is not modelled); `json.loads` is the parameter `parse`.
 */
module DischargeDiagnosis {
  import opened Wrappers
  import opened Strings
  import opened PyJson
  import opened DischargeText

  datatype Bucket = Primary | Secondary | Past | Present

  /** The bucket a lower-cased category selects: the first keyword found wins, and an
      unknown category goes to the secondary bucket. */
  function BucketOf(category: string): (b: Bucket)
    ensures b == Primary <==> Contains(category, "primary")
    ensures b == Past <==>
      !Contains(category, "primary") && !Contains(category, "secondary") && Contains(category, "past")
    ensures b == Present <==>
      !Contains(category, "primary") && !Contains(category, "secondary") && !Contains(category, "past")
      && (Contains(category, "present") || Contains(category, "current"))
    ensures b == Secondary <==>
      !Contains(category, "primary")
      && (Contains(category, "secondary")
          || (!Contains(category, "past") && !Contains(category, "present") && !Contains(category, "current")))
  {
    if Contains(category, "primary") then Primary
    else if Contains(category, "secondary") then Secondary
    else if Contains(category, "past") then Past
    else if Contains(category, "present") || Contains(category, "current") then Present
    else Secondary
  }

  /** Python's `str(v)`: a string is itself, anything else is rendered by `show`. */
  function Str(v: Value, show: Value -> string): string {
    if v.JStr? then v.s else show(v)
  }

  /** The rendering of one diagnosis dict: "text (code)" when both are truthy, the text
      itself (of whatever type) when only it is truthy, and `str(d)` otherwise. */
  function Rendered(entries: seq<(string, Value)>, show: Value -> string): (r: Value)
    ensures var text := GetOr(entries, "diagnosis", JStr(""));
            var code := GetOr(entries, "code", JStr(""));
            (Truthy(text) && Truthy(code) ==> r == JStr(Str(text, show) + " (" + Str(code, show) + ")"))
            && (Truthy(text) && !Truthy(code) ==> r == text)
            && (!Truthy(text) ==> r == JStr(show(JObj(entries))))
  {
    var text := GetOr(entries, "diagnosis", JStr(""));
    var code := GetOr(entries, "code", JStr(""));
    if Truthy(code) && Truthy(text) then JStr(Str(text, show) + " (" + Str(code, show) + ")")
    else if Truthy(text) then text
    else JStr(show(JObj(entries)))
  }

  /** The bucket and rendering of one list item, or `None` when `category.lower()` raises
      because the category is not a string. */
  function Place(d: Value, show: Value -> string): (r: Option<(Bucket, Value)>)
    ensures !d.JObj? ==> r == Some((Primary, JStr(Str(d, show))))
    ensures d.JObj? ==>
      var category := GetOr(d.entries, "category", JStr(""));
      (r.Some? <==> category.JStr?)
      && (r.Some? ==> r.value == (BucketOf(Lower(category.s)), Rendered(d.entries, show)))
  {
    match d
    case JObj(entries) =>
      var category := GetOr(entries, "category", JStr(""));
      if category.JStr? then Some((BucketOf(Lower(category.s)), Rendered(entries, show)))
      else None
    case _ => Some((Primary, JStr(Str(d, show))))
  }

  /** Every item can be placed: no category raises. */
  predicate AllPlaced(items: seq<Value>, show: Value -> string) {
    forall j :: 0 <= j < |items| ==> Place(items[j], show).Some?
  }

  /** The renderings of the items placed in bucket `b`, in input order. */
  function Members(items: seq<Value>, b: Bucket, show: Value -> string): seq<Value> {
    if |items| == 0 then []
    else
      var p := Place(items[|items| - 1], show);
      Members(items[..|items| - 1], b, show) + (if p.Some? && p.value.0 == b then [p.value.1] else [])
  }

  /** The four lists built up by the loop. */
  datatype Buckets = Buckets(primary: seq<Value>, secondary: seq<Value>, past: seq<Value>, present: seq<Value>)
  {
    function Get(b: Bucket): seq<Value> {
      match b
      case Primary => primary
      case Secondary => secondary
      case Past => past
      case Present => present
    }

    function Add(b: Bucket, v: Value): (r: Buckets)
      ensures r.Get(b) == Get(b) + [v]
      ensures forall c :: c != b ==> r.Get(c) == Get(c)
    {
      match b
      case Primary => this.(primary := primary + [v])
      case Secondary => this.(secondary := secondary + [v])
      case Past => this.(past := past + [v])
      case Present => this.(present := present + [v])
    }
  }

  /** The four buckets of the placed items, each in input order. */
  function Collected(items: seq<Value>, show: Value -> string): (r: Buckets)
    ensures forall b :: r.Get(b) == Members(items, b, show)
  {
    Buckets(Members(items, Primary, show), Members(items, Secondary, show),
            Members(items, Past, show), Members(items, Present, show))
  }

  /** Placing one more item appends its rendering to its own bucket and to no other. */
  lemma CollectedStep(items: seq<Value>, i: nat, show: Value -> string)
    requires i < |items| && Place(items[i], show).Some?
    ensures var p := Place(items[i], show).value;
            Collected(items[..i + 1], show) == Collected(items[..i], show).Add(p.0, p.1)
  {
    assert items[..i + 1][..i] == items[..i];
    var p := Place(items[i], show).value;
    var l := Collected(items[..i + 1], show);
    var r := Collected(items[..i], show).Add(p.0, p.1);
    assert l.Get(Primary) == r.Get(Primary);
    assert l.Get(Secondary) == r.Get(Secondary);
    assert l.Get(Past) == r.Get(Past);
    assert l.Get(Present) == r.Get(Present);
  }

  /** What the categorising loop leaves behind: the four buckets, or `None` when it raises. */
  function CategorizeSpec(items: seq<Value>, show: Value -> string): Option<Buckets> {
    if AllPlaced(items, show) then Some(Collected(items, show)) else None
  }

  /** A placed item after a placed prefix gives a placed, longer prefix. */
  lemma AllPlacedStep(items: seq<Value>, i: nat, show: Value -> string)
    requires i < |items| && AllPlaced(items[..i], show) && Place(items[i], show).Some?
    ensures AllPlaced(items[..i + 1], show)
  {
    var prefix, next := items[..i], items[..i + 1];
    forall j | 0 <= j < |next|
      ensures Place(next[j], show).Some?
    {
      if j < i {
        assert next[j] == prefix[j];
      }
    }
  }

  /** One more placed item extends the buckets of the prefix before it. */
  lemma CategorizeSpecStep(items: seq<Value>, i: nat, acc: Buckets, show: Value -> string)
    requires i < |items| && CategorizeSpec(items[..i], show) == Some(acc)
    requires Place(items[i], show).Some?
    ensures var p := Place(items[i], show).value;
            CategorizeSpec(items[..i + 1], show) == Some(acc.Add(p.0, p.1))
  {
    AllPlacedStep(items, i, show);
    CollectedStep(items, i, show);
  }

  /** An item that cannot be placed makes the whole loop raise. */
  lemma CategorizeSpecRaises(items: seq<Value>, i: nat, show: Value -> string)
    requires i < |items| && Place(items[i], show).None?
    ensures CategorizeSpec(items, show) == None
  {
  }

  /** The loop over the list that appends each rendering to its bucket. */
  method Categorize(items: seq<Value>, show: Value -> string) returns (r: Option<Buckets>)
    ensures r == CategorizeSpec(items, show)
  {
    var acc := Buckets([], [], [], []);
    var i := 0;
    while i < |items|
      invariant 0 <= i <= |items|
      invariant CategorizeSpec(items[..i], show) == Some(acc)
    {
      var p := Place(items[i], show);
      if p.None? {
        CategorizeSpecRaises(items, i, show);
        return None;
      }
      CategorizeSpecStep(items, i, acc, show);
      acc := acc.Add(p.value.0, p.value.1);
      i := i + 1;
    }
    assert items[..i] == items;
    return Some(acc);
  }

  lemma {:induction false} MembersAppend(a: seq<Value>, c: seq<Value>, b: Bucket, show: Value -> string)
    ensures Members(a + c, b, show) == Members(a, b, show) + Members(c, b, show)
    decreases |c|
  {
    if |c| == 0 {
      assert a + c == a;
    } else {
      MembersAppend(a, c[..|c| - 1], b, show);
      assert (a + c)[..|a + c| - 1] == a + c[..|c| - 1];
    }
  }

  /** Each item lands in exactly one bucket: the buckets together hold as many entries as
      the list has items. */
  lemma {:induction false} MembersPartition(items: seq<Value>, show: Value -> string)
    requires AllPlaced(items, show)
    ensures |Members(items, Primary, show)| + |Members(items, Secondary, show)|
            + |Members(items, Past, show)| + |Members(items, Present, show)| == |items|
  {
    if |items| > 0 {
      var init := items[..|items| - 1];
      assert AllPlaced(init, show) by {
        forall j | 0 <= j < |init| ensures Place(init[j], show).Some? {
          assert init[j] == items[j];
        }
      }
      MembersPartition(init, show);
      assert Place(items[|items| - 1], show).Some?;
    }
  }

  /** The values of a list whose members are all strings. */
  predicate AllStrings(vs: seq<Value>) {
    forall j :: 0 <= j < |vs| ==> vs[j].JStr?
  }

  function Strs(vs: seq<Value>): (r: seq<string>)
    requires AllStrings(vs)
    ensures |r| == |vs| && forall j :: 0 <= j < |vs| ==> r[j] == vs[j].s
  {
    seq(|vs|, j requires 0 <= j < |vs| => vs[j].s)
  }

  /** `sep.join(vs)`: `None` when a member is not a string (Python raises `TypeError`). */
  function JoinValues(vs: seq<Value>, sep: string): (r: Option<string>)
    ensures r.Some? <==> AllStrings(vs)
  {
    if AllStrings(vs) then Some(Join(Strs(vs), sep)) else None
  }

  /** The four results before cleaning. */
  datatype Diagnoses = Diagnoses(primary: string, secondary: string, past: string, present: string)

  /** The four joins, in order. When one raises, the handler puts `str(data)` into the
      primary result; the joins already assigned before it stay, the later ones stay "". */
  function JoinBuckets(b: Buckets, fallback: string): Diagnoses {
    match JoinValues(b.primary, "; ")
    case None => Diagnoses(fallback, "", "", "")
    case Some(p) =>
      match JoinValues(b.secondary, "; ")
      case None => Diagnoses(fallback, "", "", "")
      case Some(s) =>
        match JoinValues(b.past, "; ")
        case None => Diagnoses(fallback, s, "", "")
        case Some(pa) =>
          match JoinValues(b.present, "; ")
          case None => Diagnoses(fallback, s, pa, "")
          case Some(pr) => Diagnoses(p, s, pa, pr)
  }

  /** A list of diagnoses: categorised and joined, or `str(data)` in the primary result
      when categorising raises. */
  function FromList(items: seq<Value>, fallback: string, show: Value -> string): Diagnoses {
    match CategorizeSpec(items, show)
    case None => Diagnoses(fallback, "", "", "")
    case Some(b) => JoinBuckets(b, fallback)
  }

  /** The four results before `clean_text`, for every shape of input. */
  function RawDiagnoses(data: Value, parse: string -> Option<Value>, show: Value -> string): Diagnoses {
    if !Truthy(data) then Diagnoses("", "", "", "")
    else match data
      case JStr(s) =>
        (match parse(s)
         case None => Diagnoses(s, "", "", "")
         case Some(JArr(items)) => FromList(items, s, show)
         case Some(v) => Diagnoses(Str(v, show), "", "", ""))
      case JArr(items) => FromList(items, show(data), show)
      case _ => Diagnoses(show(data), "", "", "")
  }

  function Cleaned(d: Diagnoses): (r: Diagnoses)
    ensures XmlSafe(r.primary) && XmlSafe(r.secondary) && XmlSafe(r.past) && XmlSafe(r.present)
  {
    Diagnoses(CleanText(Some(d.primary)), CleanText(Some(d.secondary)),
              CleanText(Some(d.past)), CleanText(Some(d.present)))
  }

  /** `format_diagnosis_list(diagnosis_data)`. */
  method FormatDiagnosisList(data: Value, parse: string -> Option<Value>, show: Value -> string)
    returns (r: Diagnoses)
    ensures r == Cleaned(RawDiagnoses(data, parse, show))
  {
    var raw := CollectDiagnoses(data, parse, show);
    r := Cleaned(raw);
  }

  /** The body of `format_diagnosis_list` up to the final `clean_text` calls. */
  method CollectDiagnoses(data: Value, parse: string -> Option<Value>, show: Value -> string)
    returns (raw: Diagnoses)
    ensures raw == RawDiagnoses(data, parse, show)
  {
    raw := Diagnoses("", "", "", "");
    if Truthy(data) {
      var items: seq<Value> := [];
      var isList := false;
      var fallback := "";
      match data {
        case JStr(s) =>
          var parsed := parse(s);
          fallback := s;
          match parsed {
            case None =>
              raw := Diagnoses(s, "", "", "");
            case Some(v) =>
              if v.JArr? {
                items, isList := v.items, true;
              } else {
                raw := Diagnoses(Str(v, show), "", "", "");
              }
          }
        case JArr(xs) =>
          items, isList, fallback := xs, true, show(data);
        case _ =>
          raw := Diagnoses(show(data), "", "", "");
      }
      if isList {
        var buckets := Categorize(items, show);
        if buckets.None? {
          raw := Diagnoses(fallback, "", "", "");
        } else {
          raw := JoinBuckets(buckets.value, fallback);
        }
      }
    }
  }

  /** A missing or empty diagnosis gives four empty strings. */
  lemma FalsyDiagnosisEmpty(data: Value, parse: string -> Option<Value>, show: Value -> string)
    requires !Truthy(data)
    ensures Cleaned(RawDiagnoses(data, parse, show)) == Diagnoses("", "", "", "")
  {
  }

  /** A list whose every category is a string and whose every rendering is a string: each
      result is the cleaned "; "-join of its bucket's renderings in input order. */
  lemma ListDiagnosesJoined(items: seq<Value>, fallback: string, show: Value -> string, b: Bucket)
    requires AllPlaced(items, show)
    requires forall c :: AllStrings(Members(items, c, show))
    ensures var d := FromList(items, fallback, show);
            var joined := Join(Strs(Members(items, b, show)), "; ");
            match b
            case Primary => d.primary == joined
            case Secondary => d.secondary == joined
            case Past => d.past == joined
            case Present => d.present == joined
  {
    assert AllStrings(Members(items, Primary, show));
    assert AllStrings(Members(items, Secondary, show));
    assert AllStrings(Members(items, Past, show));
    assert AllStrings(Members(items, Present, show));
  }

  /** A category that is not a string makes the whole list fall back to `str(data)` in the
      primary result, with the other three empty. */
  lemma BadCategoryFallsBack(items: seq<Value>, fallback: string, show: Value -> string, k: nat)
    requires k < |items| && items[k].JObj? && !GetOr(items[k].entries, "category", JStr("")).JStr?
    ensures FromList(items, fallback, show) == Diagnoses(fallback, "", "", "")
  {
    assert !Place(items[k], show).Some?;
  }
}
