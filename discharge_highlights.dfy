/**
 * `extract_relevant_text_from_validation` of the discharge routes: the terms to highlight are
 * read from a JSON object in the validator's reply, or scraped from the reply text, and then
 * de-duplicated in first-occurrence order.
 *
 * `json.loads` is the parameter `parse`; the case-insensitive medical-term `re.findall` is the
 * parameter `medical`, which returns the captured groups in order.
 */
module DischargeHighlights {
  import opened Wrappers
  import opened Strings
  import opened PyJson

  /** `re.findall(r'"([^"]+)"', s)`: the non-empty runs between a pair of double quotes,
      scanning left to right and resuming after each match. */
  function QuotedTerms(s: string): seq<string>
    decreases |s|
  {
    if |s| == 0 then []
    else if s[0] == '"' then
      var k := Find(s[1..], "\"");
      if k > 0 then [s[1..k + 1]] + QuotedTerms(s[k + 2..])
      else QuotedTerms(s[1..])
    else QuotedTerms(s[1..])
  }

  function Quoted(t: string): string {
    "\"" + t + "\""
  }

  /** `t` is a non-empty run without quotes that occurs between two quotes in `s`. */
  ghost predicate QuotedIn(s: string, t: string) {
    |t| > 0 && '"' !in t && exists i :: OccursAt(s, Quoted(t), i)
  }

  /** The first match: the run between the opening quote and the next quote. */
  lemma QuotedHead(s: string)
    requires |s| > 0 && s[0] == '"' && Find(s[1..], "\"") > 0
    ensures QuotedIn(s, s[1..Find(s[1..], "\"") + 1])
  {
    var rest := s[1..];
    var k := Find(rest, "\"");
    var t0 := s[1..k + 1];
    forall j | 0 <= j < |t0| ensures t0[j] != '"' {
      assert t0[j] == rest[j];
      if rest[j] == '"' {
        assert rest[j..j + 1] == "\"";
        assert OccursAt(rest, "\"", j);
      }
    }
    assert rest[k..k + 1] == "\"";
    assert s[0..k + 2] == Quoted(t0);
    assert OccursAt(s, Quoted(t0), 0);
  }

  /** Every quoted term is non-empty, holds no quote, and occurs in the reply between two quotes. */
  lemma {:induction false} QuotedTermsSound(s: string)
    ensures forall t :: t in QuotedTerms(s) ==> QuotedIn(s, t)
    decreases |s|
  {
    if |s| > 0 {
      var rest := s[1..];
      var k := Find(rest, "\"");
      var off := if s[0] == '"' && k > 0 then k + 2 else 1;
      QuotedTermsSound(s[off..]);
      forall t | t in QuotedTerms(s[off..]) ensures QuotedIn(s, t) {
        var i :| OccursAt(s[off..], Quoted(t), i);
        OccursShift(s, Quoted(t), off, i);
      }
      if s[0] == '"' && k > 0 {
        QuotedHead(s);
      }
    }
  }

  /** The members of `xs` that `keep` accepts, in order: a list comprehension with a
      condition. */
  function Filter<T(!new)>(xs: seq<T>, keep: T -> bool): (r: seq<T>)
    ensures forall x :: x in r <==> x in xs && keep(x)
  {
    if |xs| == 0 then []
    else Filter(xs[..|xs| - 1], keep) + (if keep(xs[|xs| - 1]) then [xs[|xs| - 1]] else [])
  }

  /** The filter keeps each accepted member as often as it occurs, and no other member. */
  lemma {:induction false} FilterCount<T(!new)>(xs: seq<T>, keep: T -> bool)
    ensures forall x :: multiset(Filter(xs, keep))[x] == if keep(x) then multiset(xs)[x] else 0
  {
    if |xs| > 0 {
      var init := xs[..|xs| - 1];
      FilterCount(init, keep);
      assert xs == init + [xs[|xs| - 1]];
    }
  }

  /** The filter keeps the order: filtering two runs is filtering the first followed by
      filtering the second. */
  lemma {:induction false} FilterAppend<T(!new)>(a: seq<T>, b: seq<T>, keep: T -> bool)
    ensures Filter(a + b, keep) == Filter(a, keep) + Filter(b, keep)
    decreases |b|
  {
    if |b| == 0 {
      assert a + b == a;
    } else {
      FilterAppend(a, b[..|b| - 1], keep);
      assert (a + b)[..|a + b| - 1] == a + b[..|b| - 1];
      assert (a + b)[|a + b| - 1] == b[|b| - 1];
    }
  }

  predicate IsLongWord(w: string) {
    |w| > 5
  }

  /** The words of the reply longer than five characters, in order. */
  function LongWords(words: seq<string>): (r: seq<string>)
    ensures forall w :: w in r <==> w in words && |w| > 5
    ensures forall w :: multiset(r)[w] == if |w| > 5 then multiset(words)[w] else 0
  {
    FilterCount(words, IsLongWord);
    Filter(words, IsLongWord)
  }

  /** The long words of two runs of words are those of the first followed by those of the
      second. */
  lemma LongWordsAppend(a: seq<string>, b: seq<string>)
    ensures LongWords(a + b) == LongWords(a) + LongWords(b)
  {
    FilterAppend(a, b, IsLongWord);
  }

  /** One word is kept iff it is longer than five characters. */
  lemma LongWordsOne(w: string)
    ensures LongWords([w]) == if |w| > 5 then [w] else []
  {
    var one := [w];
    assert one[..0] == [] && one[0] == w;
    assert Filter(one, IsLongWord) == Filter([], IsLongWord) + (if IsLongWord(w) then [w] else []);
  }

  function StrValues(xs: seq<string>): (r: seq<Value>)
    ensures |r| == |xs| && forall i :: 0 <= i < |xs| ==> r[i] == JStr(xs[i])
  {
    seq(|xs|, i requires 0 <= i < |xs| => JStr(xs[i]))
  }

  function StripAll(xs: seq<string>): (r: seq<string>)
    ensures |r| == |xs| && forall i :: 0 <= i < |xs| ==> r[i] == Strip(xs[i])
  {
    seq(|xs|, i requires 0 <= i < |xs| => Strip(xs[i]))
  }

  /** The handler's fallback: the first 20 words longer than five characters. */
  function WordsFallback(response: string): Value {
    JArr(StrValues(Take(LongWords(SplitWhitespace(response)), 20)))
  }

  /** The keys tried, in order. */
  const TermKeys: seq<string> := ["relevant_text", "highlights", "key_terms", "relevant_highlights"]

  /** The terms under the first of `keys` that `key in parsed` finds, or `[]` when none is.
      `Failure` is an exception: `in` on a value that is not a dict, list or string, or
      `parsed[key]` on a list or string. */
  function KeyedTerms(parsed: Value, keys: seq<string>): (r: Result<Value, string>)
    ensures parsed.JObj? ==> r.Success?
    ensures parsed.JObj? && |keys| > 0 && keys[0] in Keys(parsed.entries)
            ==> r == Success(Get(parsed.entries, keys[0]).value)
    ensures parsed.JObj? && (forall k :: k in keys ==> k !in Keys(parsed.entries)) ==> r == Success(JArr([]))
    ensures PyIn("relevant_text", parsed).None? && |keys| > 0 ==> r.Failure?
  {
    if |keys| == 0 then Success(JArr([]))
    else match PyIn(keys[0], parsed)
      case None => Failure("TypeError")
      case Some(found) =>
        if !found then KeyedTerms(parsed, keys[1..])
        else if parsed.JObj? then Success(Get(parsed.entries, keys[0]).value)
        else Failure("TypeError")
  }

  /** A dict answers with the value of the first of the four keys it holds. */
  lemma KeyedTermsOrder(entries: seq<(string, Value)>, k: nat)
    requires k < |TermKeys| && TermKeys[k] in Keys(entries)
    requires forall j :: 0 <= j < k ==> TermKeys[j] !in Keys(entries)
    ensures KeyedTerms(JObj(entries), TermKeys) == Success(Get(entries, TermKeys[k]).value)
  {
    var ks := TermKeys;
    if k >= 1 {
      assert KeyedTerms(JObj(entries), ks) == KeyedTerms(JObj(entries), ks[1..]);
    }
    if k >= 2 {
      assert KeyedTerms(JObj(entries), ks[1..]) == KeyedTerms(JObj(entries), ks[2..]);
    }
    if k >= 3 {
      assert KeyedTerms(JObj(entries), ks[2..]) == KeyedTerms(JObj(entries), ks[3..]);
    }
  }

  /** The `{`...`}` span of the reply, from its first `{` to its last `}`, when there is one. */
  function BraceSpan(response: string): (r: Option<string>)
    ensures r.Some? ==> |r.value| >= 2 && r.value[0] == '{' && r.value[|r.value| - 1] == '}'
  {
    var start := Find(response, "{");
    var end := RFindChar(response, '}') + 1;
    if start >= 0 && end > start then
      assert response[start..start + 1] == "{";
      Some(response[start..end])
    else None
  }

  /** A `{` at `i` followed by a `}` at `j` means the reply has a span, and the span runs
      from the first `{` to the last `}`: with none before `i` and none after `j`, it is
      exactly the text from `i` to `j`. */
  lemma BraceSpanFirstToLast(response: string, i: nat, j: nat)
    requires i < j < |response| && response[i] == '{' && response[j] == '}'
    ensures BraceSpan(response).Some?
    ensures '{' !in response[..i] && '}' !in response[j + 1..] ==> BraceSpan(response) == Some(response[i..j + 1])
  {
    assert OccursAt(response, "{", i) by {
      assert response[i..i + 1] == [response[i]];
    }
    var start := Find(response, "{");
    if '{' !in response[..i] && '}' !in response[j + 1..] {
    }
  }

  /** There is no span exactly when no `{` comes before a `}`. */
  lemma BraceSpanNone(response: string)
    ensures BraceSpan(response).None? <==>
              forall i, j :: 0 <= i < j < |response| && response[i] == '{' ==> response[j] != '}'
  {
    var start := Find(response, "{");
    var end := RFindChar(response, '}') + 1;
    if start >= 0 && end > start {
      assert response[start..start + 1] == "{";
      assert response[start] == '{';
    } else {
      forall i, j | 0 <= i < j < |response| && response[i] == '{' ensures response[j] != '}' {
        if response[j] == '}' {
          BraceSpanFirstToLast(response, i, j);
        }
      }
    }
  }

  /** What `relevant_terms` holds when the `try` block is left. */
  function RelevantTerms(response: string, parse: string -> Option<Value>, medical: string -> seq<string>): Value {
    match BraceSpan(response)
    case Some(span) =>
      (match parse(span)
       case None => WordsFallback(response)
       case Some(parsed) =>
         match KeyedTerms(parsed, TermKeys)
         case Failure(_) => WordsFallback(response)
         case Success(terms) => terms)
    case None =>
      JArr(StrValues(Take(QuotedTerms(response), 20)) + StrValues(StripAll(Take(medical(response), 10))))
  }

  /** The hash keys of a list's members: what the `seen` set holds. */
  function KeySet(xs: seq<Value>): set<Value> {
    set i | 0 <= i < |xs| :: HashKey(xs[i])
  }

  /** The de-duplication loop as a value: the truthy terms whose value was not seen before,
      in order. */
  function Dedup(terms: seq<Value>): seq<Value> {
    if |terms| == 0 then []
    else
      var d := Dedup(terms[..|terms| - 1]);
      var t := terms[|terms| - 1];
      if Truthy(t) && HashKey(t) !in KeySet(d) then d + [t] else d
  }

  /** The loop raises `TypeError` on a truthy list or dict (it cannot be looked up in a set). */
  predicate DedupRaises(terms: seq<Value>) {
    exists i :: 0 <= i < |terms| && Truthy(terms[i]) && !Hashable(terms[i])
  }

  lemma KeySetAppend(xs: seq<Value>, x: Value)
    ensures KeySet(xs + [x]) == KeySet(xs) + {HashKey(x)}
  {
    var ys := xs + [x];
    assert forall i :: 0 <= i < |xs| ==> ys[i] == xs[i];
    assert ys[|xs|] == x;
  }

  /** `seen`/`unique_terms` loop. `None` is the `TypeError` an unhashable term raises. */
  method DedupTerms(terms: seq<Value>) returns (r: Option<seq<Value>>)
    ensures r.None? <==> DedupRaises(terms)
    ensures r.Some? ==> r.value == Dedup(terms)
  {
    var seen: set<Value> := {};
    var unique: seq<Value> := [];
    for i := 0 to |terms|
      invariant unique == Dedup(terms[..i])
      invariant seen == KeySet(unique)
      invariant forall j :: 0 <= j < i ==> !Truthy(terms[j]) || Hashable(terms[j])
    {
      assert terms[..i + 1][..i] == terms[..i];
      var term := terms[i];
      if Truthy(term) {
        if !Hashable(term) {
          return None;
        }
        if HashKey(term) !in seen {
          KeySetAppend(unique, term);
          seen := seen + {HashKey(term)};
          unique := unique + [term];
        }
      }
    }
    assert terms[..|terms|] == terms;
    return Some(unique);
  }

  /** The value of every truthy term is seen, and only those. */
  lemma {:induction false} DedupKeys(terms: seq<Value>)
    ensures KeySet(Dedup(terms)) == set i | 0 <= i < |terms| && Truthy(terms[i]) :: HashKey(terms[i])
  {
    if |terms| > 0 {
      var init := terms[..|terms| - 1];
      var t := terms[|terms| - 1];
      DedupKeys(init);
      if Truthy(t) && HashKey(t) !in KeySet(Dedup(init)) {
        KeySetAppend(Dedup(init), t);
      }
      assert forall i :: 0 <= i < |init| ==> init[i] == terms[i];
      var lhs := KeySet(Dedup(terms));
      var rhs := set i | 0 <= i < |terms| && Truthy(terms[i]) :: HashKey(terms[i]);
      assert lhs <= rhs;
      forall h | h in rhs ensures h in lhs {
        var i :| 0 <= i < |terms| && Truthy(terms[i]) && h == HashKey(terms[i]);
        if i < |init| {
          assert h in KeySet(Dedup(init));
        }
      }
    }
  }

  /** The truthy term at `f` is the first one with its value. */
  predicate IsFirst(terms: seq<Value>, f: nat)
    requires f < |terms|
  {
    Truthy(terms[f]) && forall g :: 0 <= g < f ==> !(Truthy(terms[g]) && HashKey(terms[g]) == HashKey(terms[f]))
  }

  /** The reference definition: the first occurrence of every truthy value, in input order. */
  function Firsts(terms: seq<Value>): seq<Value> {
    if |terms| == 0 then []
    else Firsts(terms[..|terms| - 1]) + (if IsFirst(terms, |terms| - 1) then [terms[|terms| - 1]] else [])
  }

  /** The de-duplication keeps exactly the first occurrence of each truthy value, in order. */
  lemma {:induction false} DedupIsFirsts(terms: seq<Value>)
    ensures Dedup(terms) == Firsts(terms)
  {
    if |terms| > 0 {
      var init := terms[..|terms| - 1];
      var n := |terms| - 1;
      var t := terms[n];
      DedupIsFirsts(init);
      DedupKeys(init);
      assert forall i :: 0 <= i < |init| ==> init[i] == terms[i];
      if Truthy(t) && HashKey(t) in KeySet(Dedup(init)) {
        var g :| 0 <= g < |init| && Truthy(init[g]) && HashKey(t) == HashKey(init[g]);
        assert !IsFirst(terms, n);
      }
    }
  }

  /** No two kept terms have the same value, and every kept term is truthy. */
  lemma {:induction false} DedupDistinct(terms: seq<Value>)
    ensures forall i, j :: 0 <= i < j < |Dedup(terms)| ==> HashKey(Dedup(terms)[i]) != HashKey(Dedup(terms)[j])
    ensures forall i :: 0 <= i < |Dedup(terms)| ==> Truthy(Dedup(terms)[i])
  {
    if |terms| > 0 {
      var init := terms[..|terms| - 1];
      DedupDistinct(init);
      var d := Dedup(init);
      var t := terms[|terms| - 1];
      if Truthy(t) && HashKey(t) !in KeySet(d) {
        forall i | 0 <= i < |d| ensures HashKey(d[i]) != HashKey(t) {
          assert HashKey(d[i]) in KeySet(d);
        }
      }
    }
  }

  /** `extract_relevant_text_from_validation(validation_response, xml_input)`; `None` is the
      `TypeError` the de-duplication loop raises when the terms cannot be iterated or hashed. */
  method ExtractRelevantTextFromValidation(response: string, parse: string -> Option<Value>,
                                           medical: string -> seq<string>)
    returns (r: Option<seq<Value>>)
    ensures var terms := PyIter(RelevantTerms(response, parse, medical));
            r == if terms.None? || DedupRaises(terms.value) then None else Some(Dedup(terms.value))
  {
    var relevant := RelevantTerms(response, parse, medical);
    var iter := PyIter(relevant);
    if iter.None? {
      return None;
    }
    r := DedupTerms(iter.value);
  }
}
