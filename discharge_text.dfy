/**
 * The text helpers of the discharge prompt builder: `clean_text` (tag removal, trimming
 * and XML escaping), the character-count length bucket and the age in whole years.
 */
module DischargeText {
  import opened Wrappers
  import opened Strings
  import opened Events

  /** The five `str.replace` calls of `clean_text`, in the order written: `&` first. */
  function EscapeXml(s: string): string {
    var amp := ReplaceAll(s, "&", "&amp;");
    var lt := ReplaceAll(amp, "<", "&lt;");
    var gt := ReplaceAll(lt, ">", "&gt;");
    var quot := ReplaceAll(gt, "\"", "&quot;");
    ReplaceAll(quot, "'", "&apos;")
  }

  /** The entity a single character is written as. */
  function EscapeChar(c: char): string {
    if c == '&' then "&amp;"
    else if c == '<' then "&lt;"
    else if c == '>' then "&gt;"
    else if c == '"' then "&quot;"
    else if c == '\'' then "&apos;"
    else [c]
  }

  /** Character-by-character escaping: the reference the five replacements are measured against. */
  function EscapeEach(s: string): string {
    if |s| == 0 then "" else EscapeChar(s[0]) + EscapeEach(s[1..])
  }

  /** Replacing one character by a string, character by character. */
  function Subst(s: string, c: char, t: string): string {
    if |s| == 0 then "" else (if s[0] == c then t else [s[0]]) + Subst(s[1..], c, t)
  }

  lemma {:induction false} ReplaceAllChar(s: string, c: char, t: string)
    ensures ReplaceAll(s, [c], t) == Subst(s, c, t)
  {
    if |s| > 0 {
      ReplaceAllChar(s[1..], c, t);
    }
  }

  lemma {:induction false} SubstAppend(a: string, b: string, c: char, t: string)
    ensures Subst(a + b, c, t) == Subst(a, c, t) + Subst(b, c, t)
  {
    if |a| > 0 {
      SubstAppend(a[1..], b, c, t);
      assert (a + b)[1..] == a[1..] + b;
    } else {
      assert a + b == b;
    }
  }

  lemma {:induction false} SubstAbsent(s: string, c: char, t: string)
    requires c !in s
    ensures Subst(s, c, t) == s
  {
    if |s| > 0 {
      SubstAbsent(s[1..], c, t);
    }
  }

  lemma SubstSingle(x: char, c: char, t: string)
    ensures Subst([x], c, t) == if x == c then t else [x]
  {
    assert [x][1..] == [];
  }

  function Chain(s: string): string {
    Subst(Subst(Subst(Subst(Subst(s, '&', "&amp;"), '<', "&lt;"), '>', "&gt;"), '"', "&quot;"), '\'', "&apos;")
  }

  lemma ChainAppend(a: string, b: string)
    ensures Chain(a + b) == Chain(a) + Chain(b)
  {
    var a1, b1 := Subst(a, '&', "&amp;"), Subst(b, '&', "&amp;");
    SubstAppend(a, b, '&', "&amp;");
    var a2, b2 := Subst(a1, '<', "&lt;"), Subst(b1, '<', "&lt;");
    SubstAppend(a1, b1, '<', "&lt;");
    var a3, b3 := Subst(a2, '>', "&gt;"), Subst(b2, '>', "&gt;");
    SubstAppend(a2, b2, '>', "&gt;");
    var a4, b4 := Subst(a3, '"', "&quot;"), Subst(b3, '"', "&quot;");
    SubstAppend(a3, b3, '"', "&quot;");
    SubstAppend(a4, b4, '\'', "&apos;");
  }

  /** Escaping a string that holds none of the five special characters leaves it unchanged. */
  lemma ChainPlain(s: string)
    requires '&' !in s && '<' !in s && '>' !in s && '"' !in s && '\'' !in s
    ensures Chain(s) == s
  {
    SubstAbsent(s, '&', "&amp;");
    SubstAbsent(s, '<', "&lt;");
    SubstAbsent(s, '>', "&gt;");
    SubstAbsent(s, '"', "&quot;");
    SubstAbsent(s, '\'', "&apos;");
  }

  /** The last four stages leave a string without `<`, `>`, `"` and `'` alone. */
  lemma LaterStagesAbsent(t: string)
    requires '<' !in t && '>' !in t && '"' !in t && '\'' !in t
    ensures Subst(Subst(Subst(Subst(t, '<', "&lt;"), '>', "&gt;"), '"', "&quot;"), '\'', "&apos;") == t
  {
    SubstAbsent(t, '<', "&lt;");
    LastStagesAbsent(t);
  }

  /** The last three stages leave a string without `>`, `"` and `'` alone. */
  lemma LastStagesAbsent(t: string)
    requires '>' !in t && '"' !in t && '\'' !in t
    ensures Subst(Subst(Subst(t, '>', "&gt;"), '"', "&quot;"), '\'', "&apos;") == t
  {
    SubstAbsent(t, '>', "&gt;");
    FinalStagesAbsent(t);
  }

  /** The last two stages leave a string without `"` and `'` alone. */
  lemma FinalStagesAbsent(t: string)
    requires '"' !in t && '\'' !in t
    ensures Subst(Subst(t, '"', "&quot;"), '\'', "&apos;") == t
  {
    SubstAbsent(t, '"', "&quot;");
    SubstAbsent(t, '\'', "&apos;");
  }

  lemma ChainAmp(x: char)
    requires x == '&'
    ensures Chain([x]) == EscapeChar(x)
  {
    SubstSingle(x, '&', "&amp;");
    LaterStagesAbsent("&amp;");
  }

  lemma ChainLt(x: char)
    requires x == '<'
    ensures Chain([x]) == EscapeChar(x)
  {
    SubstAbsent([x], '&', "&amp;");
    SubstSingle(x, '<', "&lt;");
    LastStagesAbsent("&lt;");
  }

  lemma ChainGt(x: char)
    requires x == '>'
    ensures Chain([x]) == EscapeChar(x)
  {
    SubstAbsent([x], '&', "&amp;");
    SubstAbsent([x], '<', "&lt;");
    SubstSingle(x, '>', "&gt;");
    FinalStagesAbsent("&gt;");
  }

  lemma ChainQuot(x: char)
    requires x == '"'
    ensures Chain([x]) == EscapeChar(x)
  {
    SubstAbsent([x], '&', "&amp;");
    SubstAbsent([x], '<', "&lt;");
    SubstAbsent([x], '>', "&gt;");
    SubstSingle(x, '"', "&quot;");
    SubstAbsent("&quot;", '\'', "&apos;");
  }

  lemma ChainApos(x: char)
    requires x == '\''
    ensures Chain([x]) == EscapeChar(x)
  {
    SubstAbsent([x], '&', "&amp;");
    SubstAbsent([x], '<', "&lt;");
    SubstAbsent([x], '>', "&gt;");
    SubstAbsent([x], '"', "&quot;");
    SubstSingle(x, '\'', "&apos;");
  }

  lemma ChainOne(x: char)
    ensures Chain([x]) == EscapeChar(x)
  {
    if x == '&' {
      ChainAmp(x);
    } else if x == '<' {
      ChainLt(x);
    } else if x == '>' {
      ChainGt(x);
    } else if x == '"' {
      ChainQuot(x);
    } else if x == '\'' {
      ChainApos(x);
    } else {
      ChainPlain([x]);
    }
  }

  lemma {:induction false} ChainIsEscapeEach(s: string)
    ensures Chain(s) == EscapeEach(s)
  {
    if |s| > 0 {
      ChainIsEscapeEach(s[1..]);
      ChainAppend([s[0]], s[1..]);
      ChainOne(s[0]);
      assert s == [s[0]] + s[1..];
    }
  }

  /** The five replacements, `&` first, escape every character exactly once. */
  lemma EscapeXmlIsEscapeEach(s: string)
    ensures EscapeXml(s) == EscapeEach(s)
  {
    var amp := ReplaceAll(s, "&", "&amp;");
    ReplaceAllChar(s, '&', "&amp;");
    var lt := ReplaceAll(amp, "<", "&lt;");
    ReplaceAllChar(amp, '<', "&lt;");
    var gt := ReplaceAll(lt, ">", "&gt;");
    ReplaceAllChar(lt, '>', "&gt;");
    var quot := ReplaceAll(gt, "\"", "&quot;");
    ReplaceAllChar(gt, '"', "&quot;");
    ReplaceAllChar(quot, '\'', "&apos;");
    ChainIsEscapeEach(s);
  }

  /** Decoding of the five predefined XML entities. */
  function Unescape(s: string): string
    decreases |s|
  {
    if |s| == 0 then ""
    else if StartsWith(s, "&amp;") then "&" + Unescape(s[5..])
    else if StartsWith(s, "&lt;") then "<" + Unescape(s[4..])
    else if StartsWith(s, "&gt;") then ">" + Unescape(s[4..])
    else if StartsWith(s, "&quot;") then "\"" + Unescape(s[6..])
    else if StartsWith(s, "&apos;") then "'" + Unescape(s[6..])
    else [s[0]] + Unescape(s[1..])
  }

  lemma NotStartsWith(s: string, p: string, k: nat)
    requires k < |p| && k < |s| && s[k] != p[k]
    ensures !StartsWith(s, p)
  {
  }

  lemma UnescapeOne(x: char, rest: string)
    ensures Unescape(EscapeChar(x) + rest) == [x] + Unescape(rest)
  {
    var e := EscapeChar(x);
    var s := e + rest;
    assert s[..|e|] == e && s[|e|..] == rest;
    assert s[0] == e[0] && (|e| > 1 ==> s[1] == e[1]);
    if x == '<' {
      assert e == "&lt;";
      NotStartsWith(s, "&amp;", 1);
    } else if x == '>' {
      assert e == "&gt;";
      NotStartsWith(s, "&amp;", 1);
      NotStartsWith(s, "&lt;", 1);
    } else if x == '"' {
      assert e == "&quot;";
      NotStartsWith(s, "&amp;", 1);
      NotStartsWith(s, "&lt;", 1);
      NotStartsWith(s, "&gt;", 1);
    } else if x == '\'' {
      assert e == "&apos;";
      assert s[2] == e[2];
      NotStartsWith(s, "&amp;", 2);
      NotStartsWith(s, "&lt;", 1);
      NotStartsWith(s, "&gt;", 1);
      NotStartsWith(s, "&quot;", 1);
    } else if x != '&' {
      NotStartsWith(s, "&amp;", 0);
      NotStartsWith(s, "&lt;", 0);
      NotStartsWith(s, "&gt;", 0);
      NotStartsWith(s, "&quot;", 0);
      NotStartsWith(s, "&apos;", 0);
    }
  }

  /** Decoding undoes the escaping. */
  lemma {:induction false} UnescapeEscapeEach(s: string)
    ensures Unescape(EscapeEach(s)) == s
  {
    if |s| > 0 {
      UnescapeEscapeEach(s[1..]);
      UnescapeOne(s[0], EscapeEach(s[1..]));
    }
  }

  /** One of the five predefined entities starts at `i`. */
  predicate EntityAt(s: string, i: int) {
    OccursAt(s, "&amp;", i) || OccursAt(s, "&lt;", i) || OccursAt(s, "&gt;", i)
    || OccursAt(s, "&quot;", i) || OccursAt(s, "&apos;", i)
  }

  /** Safe inside XML text and attribute values: no raw `<`, `>`, `"` or `'`, and every `&`
      begins an entity. */
  predicate XmlSafe(s: string) {
    forall i :: 0 <= i < |s| ==>
      s[i] != '<' && s[i] != '>' && s[i] != '"' && s[i] != '\'' && (s[i] == '&' ==> EntityAt(s, i))
  }

  lemma XmlSafeAppend(a: string, b: string)
    requires XmlSafe(a) && XmlSafe(b)
    ensures XmlSafe(a + b)
  {
    var s := a + b;
    forall i | 0 <= i < |s| && s[i] == '&' ensures EntityAt(s, i) {
      if i < |a| {
        assert EntityAt(a, i);
        assert a[i..] <= s[i..];
      } else {
        assert EntityAt(b, i - |a|);
        assert s[i..] == b[i - |a|..];
      }
    }
  }

  lemma {:induction false} EscapeEachSafe(s: string)
    ensures XmlSafe(EscapeEach(s))
  {
    if |s| > 0 {
      EscapeEachSafe(s[1..]);
      var e := EscapeChar(s[0]);
      assert e[0] == '&' ==> EntityAt(e, 0);
      XmlSafeAppend(e, EscapeEach(s[1..]));
    }
  }

  /** `clean_text` of the discharge routes. `None` is the missing value. The result is empty
      exactly when nothing but tags and white space was given, it is safe inside XML, and
      decoding it gives back the text without tags and surrounding white space. */
  function CleanText(text: Option<string>): (r: string)
    ensures text.None? || text == Some("") ==> r == ""
    ensures text.Some? ==> (r == "" <==> Strip(RemovePTags(text.value)) == "")
    ensures XmlSafe(r)
    ensures text.Some? ==> Unescape(r) == Strip(RemovePTags(text.value))
  {
    match text
    case None => ""
    case Some(t) =>
      if t == "" then ""
      else
        var stripped := Strip(RemovePTags(t));
        EscapeXmlIsEscapeEach(stripped);
        EscapeEachSafe(stripped);
        UnescapeEscapeEach(stripped);
        assert stripped != "" ==> EscapeEach(stripped) == EscapeChar(stripped[0]) + EscapeEach(stripped[1..]);
        EscapeXml(stripped)
  }

  lemma {:induction false} EscapeEachAppend(a: string, b: string)
    ensures EscapeEach(a + b) == EscapeEach(a) + EscapeEach(b)
  {
    if |a| > 0 {
      EscapeEachAppend(a[1..], b);
      assert (a + b)[1..] == a[1..] + b;
    } else {
      assert a + b == b;
    }
  }

  /** Escaping never shortens a text, and lengthens every text holding one of the five
      special characters. */
  lemma {:induction false} EscapeEachLonger(s: string)
    ensures |EscapeEach(s)| >= |s|
    ensures ('&' in s || '<' in s || '>' in s || '"' in s || '\'' in s) ==> |EscapeEach(s)| > |s|
  {
    if |s| > 0 {
      EscapeEachLonger(s[1..]);
      assert s == [s[0]] + s[1..];
    }
  }

  /** The entity of a character starts with the character or `&`, and ends with it or `;`. */
  lemma EscapeCharEnds(c: char)
    ensures var e := EscapeChar(c);
            |e| > 0 && (e[0] == c || e[0] == '&') && (e[|e| - 1] == c || e[|e| - 1] == ';')
  {
  }

  /** An escaped text starts with its first character or with `&`, and ends with its last
      character or with `;`. */
  lemma EscapeEachEnds(s: string)
    requires |s| > 0
    ensures var e := EscapeEach(s);
            |e| > 0 && (e[0] == s[0] || e[0] == '&') && (e[|e| - 1] == s[|s| - 1] || e[|e| - 1] == ';')
  {
    var n := |s| - 1;
    var init, last := s[..n], s[n];
    EscapeCharEnds(s[0]);
    EscapeCharEnds(last);
    var first := EscapeChar(s[0]);
    assert EscapeEach(s) == first + EscapeEach(s[1..]);
    assert s == init + [last];
    EscapeEachAppend(init, [last]);
    assert EscapeEach([last]) == EscapeChar(last) + EscapeEach([]);
    var final := EscapeChar(last);
    assert EscapeEach(s) == EscapeEach(init) + final;
  }

  /** A text without `<` holds no paragraph tag, so the tag removal leaves it alone. */
  lemma RemovePTagsNoLt(s: string)
    requires '<' !in s
    ensures RemovePTags(s) == s
  {
    RemovePTagsChanges(s);
  }

  lemma {:induction false} EscapeEachNoLt(u: string)
    ensures '<' !in EscapeEach(u)
  {
    if |u| > 0 {
      EscapeEachNoLt(u[1..]);
    }
  }

  /** An escaped trimmed text has no tag to remove and no white space to trim. */
  lemma EscapedIsClean(u: string)
    requires u == [] || (!IsSpace(u[0]) && !IsSpace(u[|u| - 1]))
    ensures Strip(RemovePTags(EscapeEach(u))) == EscapeEach(u)
  {
    var e := EscapeEach(u);
    EscapeEachNoLt(u);
    RemovePTagsNoLt(e);
    if u != [] {
      EscapeEachEnds(u);
      assert !IsSpace('&') && !IsSpace(';');
      assert !IsSpace(e[0]) && !IsSpace(e[|e| - 1]);
    }
    StripOfStripped(e);
  }

  /** Cleaning an already cleaned text escapes it a second time: every `&` of the first
      pass becomes `&amp;`. */
  lemma CleanTwice(t: string)
    ensures CleanText(Some(CleanText(Some(t)))) == EscapeEach(EscapeEach(Strip(RemovePTags(t))))
  {
    var u := Strip(RemovePTags(t));
    var e := CleanText(Some(t));
    if t == "" {
      assert RemovePTags(t) == "";
      assert u == "";
    } else {
      EscapeXmlIsEscapeEach(u);
      assert e == EscapeEach(u);
      EscapedIsClean(u);
      if e != "" {
        EscapeXmlIsEscapeEach(e);
      }
    }
  }

  /** `get_length_hint` of the discharge routes, on a character count. */
  function LengthHint(contentLength: int): string {
    if contentLength < 1200 then "short"
    else if 1200 <= contentLength < 2100 then "medium"
    else "long"
  }

  function HintRank(hint: string): nat {
    if hint == "short" then 0 else if hint == "medium" then 1 else 2
  }

  /** The bucket is "short" below 1200 characters, "medium" below 2100, and "long"
      from 2100 on; a longer text never gets a shorter bucket. */
  lemma LengthHintBuckets(a: int, b: int)
    ensures LengthHint(a) == "short" <==> a < 1200
    ensures LengthHint(a) == "medium" <==> 1200 <= a < 2100
    ensures LengthHint(a) == "long" <==> 2100 <= a
    ensures a <= b ==> HintRank(LengthHint(a)) <= HintRank(LengthHint(b))
  {
  }

  /** `calculate_age`'s arithmetic: one year less while this year's birthday is still ahead. */
  function AgeYears(birthday: Date, today: Date): int {
    var age := today.year - birthday.year;
    if today.month < birthday.month || (today.month == birthday.month && today.day < birthday.day)
    then age - 1 else age
  }

  /** The `n`-th birthday falls on or before `today`. */
  predicate ReachedBirthday(birthday: Date, n: int, today: Date) {
    birthday.year + n < today.year
    || (birthday.year + n == today.year
        && (birthday.month < today.month
            || (birthday.month == today.month && birthday.day <= today.day)))
  }

  /** The age is the number of birthdays already reached: the last one reached is the
      `AgeYears`-th, and the next one is still ahead. */
  lemma AgeIsCompletedYears(birthday: Date, today: Date)
    ensures ReachedBirthday(birthday, AgeYears(birthday, today), today)
    ensures !ReachedBirthday(birthday, AgeYears(birthday, today) + 1, today)
  {
  }

  /** `calculate_age(birthday)` with today's date passed in; `None` is a missing birthday. */
  function CalculateAge(birthday: Option<Date>, today: Date): (r: string)
    ensures r == "Unknown" <==> birthday.None?
    ensures birthday.Some? ==> r == IntToString(AgeYears(birthday.value, today))
  {
    match birthday
    case None => "Unknown"
    case Some(b) =>
      var r := IntToString(AgeYears(b, today));
      assert r[0] == '-' || '0' <= r[0] <= '9';
      r
  }
}
