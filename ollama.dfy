/**
 * The text handling of the Ollama service: the streamed reply is passed on line by line or
 * accumulated into one text, an `<answer>` body is cut out of the summary before validation,
 * and the validator's reply is decoded into its `relevant_text`, with a repair of stray
 * escapes when the first decoding fails.
 *
 * The HTTP session is left out: the status and the lines of a streamed reply are inputs, and
 * the request `send_api_request` makes is the parameter `send`. `json.loads` is the parameter
 * `parse` and `ast.literal_eval` the parameter `literalEval`.
 */
module Ollama {
  import opened Wrappers
  import opened Strings
  import opened PyJson

  // ---------------------------------------------------------------- accumulate_response

  /** The text one line adds to the accumulated reply: nothing for an empty line or one that
      does not decode, the `response` string of an object, and `None` when Python raises a
      `TypeError` (`in` on a number, a boolean or null; indexing a list or a string with
      `'response'`; adding a non-string to the text). */
  function Contribution(line: string, parse: string -> Option<Value>): (r: Option<string>)
    ensures line == "" || parse(line).None? ==> r == Some("")
    ensures r.Some? ==> r.value == ResponseField(line, parse)
    ensures IsResponseLine(line, parse) ==> r == Some(ResponseField(line, parse))
    ensures line != "" && parse(line).Some? && parse(line).value.JObj? ==>
              (r.None? <==> Get(parse(line).value.entries, "response").Some?
                            && !Get(parse(line).value.entries, "response").value.JStr?)
    ensures line != "" && parse(line).Some? && !parse(line).value.JObj? ==>
              r == if PyIn("response", parse(line).value) == Some(false) then Some("") else None
  {
    if line == "" then Some("")
    else match parse(line)
      case None => Some("")
      case Some(data) =>
        match PyIn("response", data)
        case None => None
        case Some(found) =>
          if !found then Some("")
          else if data.JObj? then
            match Get(data.entries, "response")
            case Some(JStr(s)) => Some(s)
            case _ => None
          else None
  }

  /** A decoded object line whose `response` is a string. */
  predicate IsResponseLine(line: string, parse: string -> Option<Value>) {
    line != "" && parse(line).Some? && parse(line).value.JObj?
    && Get(parse(line).value.entries, "response").Some?
    && Get(parse(line).value.entries, "response").value.JStr?
  }

  /** The `response` string of a line that carries one, and "" for every other line. */
  function ResponseField(line: string, parse: string -> Option<Value>): string {
    if IsResponseLine(line, parse) then Get(parse(line).value.entries, "response").value.s else ""
  }

  /** The `response` strings of the lines, in order. */
  function Responses(lines: seq<string>, parse: string -> Option<Value>): string {
    if |lines| == 0 then ""
    else Responses(lines[..|lines| - 1], parse) + ResponseField(lines[|lines| - 1], parse)
  }

  /** Appending to text that is still being accumulated; `None` once Python has raised. */
  function Then(acc: Option<string>, more: Option<string>): (r: Option<string>)
    ensures r.Some? <==> acc.Some? && more.Some?
  {
    if acc.Some? && more.Some? then Some(acc.value + more.value) else None
  }

  /** The reply `accumulate_response` returns for these lines, or `None` when it raises. */
  function Accumulated(lines: seq<string>, parse: string -> Option<Value>): Option<string> {
    if |lines| == 0 then Some("")
    else Then(Accumulated(lines[..|lines| - 1], parse), Contribution(lines[|lines| - 1], parse))
  }

  /** `accumulate_response(response)`: the loop that appends each `response` field. */
  method AccumulateResponse(lines: seq<string>, parse: string -> Option<Value>) returns (r: Option<string>)
    ensures r == Accumulated(lines, parse)
  {
    var fullResponse := "";
    for i := 0 to |lines|
      invariant Accumulated(lines[..i], parse) == Some(fullResponse)
    {
      assert lines[..i + 1][..i] == lines[..i];
      var next := AddLine(fullResponse, lines[i], parse);
      if next.None? {
        RaisedStaysRaised(lines, i + 1, parse);
        return None;
      }
      fullResponse := next.value;
    }
    assert lines[..|lines|] == lines;
    return Some(fullResponse);
  }

  /** Once a line has raised, the whole call has. */
  lemma RaisedStaysRaised(lines: seq<string>, n: nat, parse: string -> Option<Value>)
    requires n <= |lines| && Accumulated(lines[..n], parse).None?
    ensures Accumulated(lines, parse).None?
  {
    AccumulatedAppend(lines[..n], lines[n..], parse);
    assert lines[..n] + lines[n..] == lines;
  }

  /** The body of the loop for one line: `None` when Python raises. */
  method AddLine(fullResponse: string, line: string, parse: string -> Option<Value>) returns (r: Option<string>)
    ensures r == Then(Some(fullResponse), Contribution(line, parse))
  {
    assert fullResponse + "" == fullResponse;
    if line != "" {
      var data := parse(line);
      if data.Some? {
        var found := PyIn("response", data.value);
        if found.None? {
          return None;
        }
        if found.value {
          if !data.value.JObj? {
            return None;
          }
          var field := Get(data.value.entries, "response");
          if !(field.Some? && field.value.JStr?) {
            return None;
          }
          return Some(fullResponse + field.value.s);
        }
      }
    }
    return Some(fullResponse);
  }

  /** The accumulated reply is the `response` strings of all lines, in order, unless some
      line raises, and then the whole call raises. */
  lemma {:induction false} AccumulatedIsResponses(lines: seq<string>, parse: string -> Option<Value>)
    ensures Accumulated(lines, parse).None? <==>
              exists k :: 0 <= k < |lines| && Contribution(lines[k], parse).None?
    ensures Accumulated(lines, parse).Some? ==> Accumulated(lines, parse).value == Responses(lines, parse)
  {
    if |lines| > 0 {
      var init := lines[..|lines| - 1];
      var last := lines[|lines| - 1];
      AccumulatedIsResponses(init, parse);
      if Accumulated(lines, parse).None? {
        if Contribution(last, parse).None? {
          assert Contribution(lines[|lines| - 1], parse).None?;
        } else {
          var k :| 0 <= k < |init| && Contribution(init[k], parse).None?;
          assert lines[k] == init[k];
        }
      } else {
        forall k | 0 <= k < |lines| ensures Contribution(lines[k], parse).Some? {
          if k < |init| {
            assert lines[k] == init[k];
          }
        }
      }
    }
  }

  lemma ThenAssociative(x: Option<string>, y: Option<string>, z: Option<string>)
    ensures Then(Then(x, y), z) == Then(x, Then(y, z))
  {
    if x.Some? && y.Some? && z.Some? {
      assert (x.value + y.value) + z.value == x.value + (y.value + z.value);
    }
  }

  /** The accumulated reply of two runs of lines is the reply of the first followed by the
      reply of the second: lines are taken in order, and a line that adds nothing does not
      stop the accumulation. */
  lemma {:induction false} AccumulatedAppend(a: seq<string>, b: seq<string>, parse: string -> Option<Value>)
    ensures Accumulated(a + b, parse) == Then(Accumulated(a, parse), Accumulated(b, parse))
    decreases |b|
  {
    if |b| == 0 {
      assert a + b == a;
      var acc := Accumulated(a, parse);
      if acc.Some? {
        assert acc.value + "" == acc.value;
      }
    } else {
      var b0 := b[..|b| - 1];
      var last := b[|b| - 1];
      AccumulatedAppend(a, b0, parse);
      assert (a + b)[..|a + b| - 1] == a + b0;
      assert (a + b)[|a + b| - 1] == last;
      assert Accumulated(a + b, parse) == Then(Accumulated(a + b0, parse), Contribution(last, parse));
      assert Accumulated(b, parse) == Then(Accumulated(b0, parse), Contribution(last, parse));
      ThenAssociative(Accumulated(a, parse), Accumulated(b0, parse), Contribution(last, parse));
    }
  }

  /** A line that is empty or does not decode changes nothing. */
  lemma SkippedLine(lines: seq<string>, line: string, parse: string -> Option<Value>)
    requires line == "" || parse(line).None?
    ensures Accumulated(lines + [line], parse) == Accumulated(lines, parse)
  {
    assert (lines + [line])[..|lines|] == lines;
    if Accumulated(lines, parse).Some? {
      assert Accumulated(lines, parse).value + "" == Accumulated(lines, parse).value;
    }
  }

  // ---------------------------------------------------------------- generate_stream

  /** The one line sent instead of the stream when Ollama answers with another status. */
  function StreamErrorLine(model: string, status: int): string {
    "{\"model\": \"" + model + "\", \"created_at\": \"2024-01-01T00:00:00Z\", "
    + "\"response\": \"Error: API request failed with status " + IntToString(status) + "\", "
    + "\"done\": true}\n"
  }

  /** What one streamed line is passed on as: the stripped line and one newline, when the
      stripped line is not empty and decodes; nothing otherwise. */
  function StreamChunk(line: string, parse: string -> Option<Value>): Option<string> {
    var t := Strip(line);
    if line != "" && t != "" && parse(t).Some? then Some(t + "\n") else None
  }

  function Chunks(lines: seq<string>, parse: string -> Option<Value>): seq<string> {
    if |lines| == 0 then []
    else
      var c := StreamChunk(lines[|lines| - 1], parse);
      Chunks(lines[..|lines| - 1], parse) + (if c.Some? then [c.value] else [])
  }

  /** Everything `generate_stream` yields for a reply with this status and these lines. */
  function Streamed(model: string, status: int, lines: seq<string>, parse: string -> Option<Value>): seq<string> {
    if status != 200 then [StreamErrorLine(model, status)] else Chunks(lines, parse)
  }

  /** `OllamaService.generate_stream(model, prompt)`: the loop over the reply's lines. */
  method GenerateStream(model: string, status: int, lines: seq<string>, parse: string -> Option<Value>)
    returns (out: seq<string>)
    ensures out == Streamed(model, status, lines, parse)
  {
    if status != 200 {
      return [StreamErrorLine(model, status)];
    }
    out := [];
    for i := 0 to |lines|
      invariant out == Chunks(lines[..i], parse)
    {
      assert lines[..i + 1][..i] == lines[..i];
      var line := lines[i];
      if line != "" {
        var jsonStr := Strip(line);
        if jsonStr != "" {
          var parsed := parse(jsonStr);
          if parsed.Some? {
            out := out + [jsonStr + "\n"];
          }
        }
      }
    }
    assert lines[..|lines|] == lines;
  }

  /** A chunk is a decodable line with nothing left to strip at either end, and exactly one
      newline after it. */
  predicate WellFormedChunk(c: string, parse: string -> Option<Value>) {
    |c| >= 2 && c[|c| - 1] == '\n' && !IsSpace(c[0]) && !IsSpace(c[|c| - 2]) && parse(c[..|c| - 1]).Some?
  }

  /** Every yielded line is well formed, and there are never more of them than input lines. */
  lemma {:induction false} ChunksWellFormed(lines: seq<string>, parse: string -> Option<Value>)
    ensures forall k :: 0 <= k < |Chunks(lines, parse)| ==> WellFormedChunk(Chunks(lines, parse)[k], parse)
    ensures |Chunks(lines, parse)| <= |lines|
  {
    if |lines| > 0 {
      var init := lines[..|lines| - 1];
      var c := StreamChunk(lines[|lines| - 1], parse);
      ChunksWellFormed(init, parse);
      StreamChunkWellFormed(lines[|lines| - 1], parse);
      assert Chunks(lines, parse) == Chunks(init, parse) + (if c.Some? then [c.value] else []);
    }
  }

  lemma StreamChunkWellFormed(line: string, parse: string -> Option<Value>)
    ensures StreamChunk(line, parse).Some? ==> WellFormedChunk(StreamChunk(line, parse).value, parse)
  {
    var t := Strip(line);
    if StreamChunk(line, parse).Some? {
      var c := t + "\n";
      assert c[..|c| - 1] == t && c[0] == t[0] && c[|c| - 2] == t[|t| - 1];
    }
  }

  /** One line yields its stripped text and a newline exactly when that text is not empty and
      decodes, and yields nothing otherwise. */
  lemma ChunkOfLine(line: string, parse: string -> Option<Value>)
    ensures Strip(line) != "" && parse(Strip(line)).Some? ==> Chunks([line], parse) == [Strip(line) + "\n"]
    ensures Strip(line) == "" || parse(Strip(line)).None? ==> Chunks([line], parse) == []
  {
    assert [line][..0] == [];
    if line == "" {
      assert Strip(line) == "";
    }
  }

  /** A dropped line does not stop the stream: the chunks of two runs of lines are the
      chunks of the first followed by those of the second. */
  lemma {:induction false} ChunksAppend(a: seq<string>, b: seq<string>, parse: string -> Option<Value>)
    ensures Chunks(a + b, parse) == Chunks(a, parse) + Chunks(b, parse)
    decreases |b|
  {
    if |b| == 0 {
      assert a + b == a;
    } else {
      var b0 := b[..|b| - 1];
      ChunksAppend(a, b0, parse);
      assert (a + b)[..|a + b| - 1] == a + b0;
      assert (a + b)[|a + b| - 1] == b[|b| - 1];
    }
  }

  /** Another status yields exactly one line, and that line reports the stream as done. */
  lemma StreamErrorIsDone(model: string, status: int, lines: seq<string>, parse: string -> Option<Value>)
    requires status != 200
    ensures var out := Streamed(model, status, lines, parse);
            |out| == 1 && |out[0]| >= 14 && out[0][|out[0]| - 14..] == "\"done\": true}\n"
  {
  }

  // ---------------------------------------------------------------- validation_text

  const AnswerOpen: string := "<answer>"
  const AnswerClose: string := "</answer>"

  /** The text between the first `open` and the first `close` after it: what the lazy
      pattern `open(.*?)close` captures with `re.DOTALL`, or `None` when it does not match. */
  function FirstBetween(s: string, open: string, close: string): Option<string> {
    var i := Find(s, open);
    if i < 0 then None
    else
      var j := Find(s[i + |open|..], close);
      if j < 0 then None else Some(s[i + |open|..i + |open| + j])
  }

  /** The capture runs from the first `open` to the nearest `close` after it: for an `open`
      at `i` with none before it, and a `close` at `k` with none between, it is the text
      between the two. */
  lemma FirstBetweenFirstShortest(s: string, open: string, close: string, i: nat, k: nat)
    requires OccursAt(s, open, i)
    requires forall i' :: 0 <= i' < i ==> !OccursAt(s, open, i')
    requires i + |open| <= k && OccursAt(s, close, k)
    requires forall k' :: i + |open| <= k' < k ==> !OccursAt(s, close, k')
    ensures FirstBetween(s, open, close) == Some(s[i + |open|..k])
  {
    var off := i + |open|;
    FindIsFirst(s, open, i);
    var rest := s[off..];
    OccursShift(s, close, off, k - off);
    forall j | 0 <= j < k - off ensures !OccursAt(rest, close, j) {
      OccursShift(s, close, off, j);
    }
    FindIsFirst(rest, close, k - off);
    assert rest[..k - off] == s[off..k];
  }

  /** There is no capture exactly when no `open` is followed by a `close`. */
  lemma FirstBetweenNone(s: string, open: string, close: string)
    ensures FirstBetween(s, open, close).None? <==>
      forall i, k :: OccursAt(s, open, i) && i + |open| <= k ==> !OccursAt(s, close, k)
  {
    var i := Find(s, open);
    if i >= 0 {
      var off := i + |open|;
      var j := Find(s[off..], close);
      if j >= 0 {
        OccursShift(s, close, off, j);
      } else {
        forall i', k | OccursAt(s, open, i') && i' + |open| <= k
          ensures !OccursAt(s, close, k)
        {
          OccursShift(s, close, off, k - off);
        }
      }
    }
  }

  /** Text wrapped in `open` and `close` is captured whole when it holds no `close` and the
      first character of `close` does not occur again in it. */
  lemma FirstBetweenWrapped(open: string, x: string, close: string)
    requires |close| > 0 && forall d :: 0 < d < |close| ==> close[d] != close[0]
    requires !Contains(x, close)
    ensures FirstBetween(open + x + close, open, close) == Some(x)
  {
    var s := open + x + close;
    var end := |open| + |x|;
    assert s[0..|open|] == open;
    assert s[end..end + |close|] == close;
    forall k' | |open| <= k' < end ensures !OccursAt(s, close, k') {
      if k' + |close| <= end {
        assert s[k'..k' + |close|] == x[k' - |open|..k' - |open| + |close|];
        if OccursAt(s, close, k') {
          ContainsAt(x, close, k' - |open|);
        }
      } else {
        assert s[end] == close[0];
      }
    }
    FirstBetweenFirstShortest(s, open, close, 0, end);
    assert s[|open|..end] == x;
  }

  /** `re.search(r'<answer>(.*?)</answer>', summary, re.DOTALL).group(1).strip()`. */
  function AnswerBody(summary: string): Option<string> {
    match FirstBetween(summary, "<answer>", "</answer>")
    case Some(body) => Some(Strip(body))
    case None => None
  }

  /** A summary that is one answer element gives back its stripped content. */
  lemma AnswerBodyOfAnswer(x: string)
    requires !Contains(x, "</answer>")
    ensures AnswerBody("<answer>" + x + "</answer>") == Some(Strip(x))
  {
    var close := "</answer>";
    assert forall d :: 0 < d < |close| ==> close[d] != close[0];
    FirstBetweenWrapped("<answer>", x, close);
  }

  /** The summary that is put into the prompt: the answer body when there is one. */
  function ValidationSummary(summary: string): (r: string)
    ensures AnswerBody(summary).None? ==> r == summary
    ensures AnswerBody(summary).Some? ==> r == AnswerBody(summary).value
  {
    match AnswerBody(summary)
    case Some(body) => body
    case None => summary
  }

  /** The prompt sent to the validator: the consultation request, then the nurse's result. */
  function ValidationPrompt(original: string, summary: string): string {
    "#申請會診單：\n" + original + "\n\n#護理師確認結果：\n" + summary
  }

  // ---------------------------------------------------------------- extract_relevant_text

  /** The eight escapes that are repaired, in the order they are tried. */
  const EscapeRepairs: seq<(string, string)> :=
    [("\\#", "#"), ("\\*", "*"), ("\\&", "&"), ("\\%", "%"),
     ("\\@", "@"), ("\\_", "_"), ("\\~", "~"), ("\\$", "$")]

  /** The text after the first `n` repairs. */
  function Repaired(s: string, n: nat): string
    requires n <= |EscapeRepairs|
  {
    if n == 0 then s
    else ReplaceAll(Repaired(s, n - 1), EscapeRepairs[n - 1].0, EscapeRepairs[n - 1].1)
  }

  /** The replacement loop: each escape that occurs in the text is replaced everywhere. */
  method RepairEscapes(fullResponse: string) returns (fixed: string)
    ensures fixed == Repaired(fullResponse, |EscapeRepairs|)
  {
    fixed := fullResponse;
    for i := 0 to |EscapeRepairs|
      invariant fixed == Repaired(fullResponse, i)
    {
      var (escaped, bare) := EscapeRepairs[i];
      if Contains(fixed, escaped) {
        fixed := ReplaceAll(fixed, escaped, bare);
      } else {
        ReplaceAllAbsent(fixed, escaped, bare);
      }
    }
  }

  /** The text without its backslashes. */
  function DropBackslashes(s: string): (r: string)
    ensures '\\' !in r
  {
    if |s| == 0 then "" else (if s[0] == '\\' then "" else [s[0]]) + DropBackslashes(s[1..])
  }

  lemma {:induction false} DropBackslashesAppend(a: string, b: string)
    ensures DropBackslashes(a + b) == DropBackslashes(a) + DropBackslashes(b)
    decreases |a|
  {
    if |a| > 0 {
      var head := if a[0] == '\\' then "" else [a[0]];
      assert (a + b)[0] == a[0] && (a + b)[1..] == a[1..] + b;
      assert DropBackslashes(a + b) == head + DropBackslashes(a[1..] + b);
      DropBackslashesAppend(a[1..], b);
      assert DropBackslashes(a) == head + DropBackslashes(a[1..]);
    } else {
      assert a + b == b;
    }
  }

  /** Replacing an escape by its bare character only deletes backslashes. */
  lemma {:induction false} ReplaceEscapeDropsBackslashes(s: string, c: char)
    requires c != '\\'
    ensures DropBackslashes(ReplaceAll(s, ['\\', c], [c])) == DropBackslashes(s)
    decreases |s|
  {
    if |s| >= 2 {
      if s[..2] == ['\\', c] {
        ReplaceEscapeDropsBackslashes(s[2..], c);
        DropBackslashesAppend([c], ReplaceAll(s[2..], ['\\', c], [c]));
        DropBackslashesAppend(s[..2], s[2..]);
        assert s == s[..2] + s[2..];
      } else {
        ReplaceEscapeDropsBackslashes(s[1..], c);
        DropBackslashesAppend([s[0]], ReplaceAll(s[1..], ['\\', c], [c]));
        DropBackslashesAppend([s[0]], s[1..]);
        assert s == [s[0]] + s[1..];
      }
    }
  }

  /** The repair deletes backslashes and nothing else. */
  lemma {:induction false} RepairOnlyDropsBackslashes(s: string, n: nat)
    requires n <= |EscapeRepairs|
    ensures DropBackslashes(Repaired(s, n)) == DropBackslashes(s)
    ensures |Repaired(s, n)| <= |s|
  {
    if n > 0 {
      RepairOnlyDropsBackslashes(s, n - 1);
      var (escaped, bare) := EscapeRepairs[n - 1];
      assert escaped == ['\\', bare[0]] && bare == [bare[0]];
      ReplaceEscapeDropsBackslashes(Repaired(s, n - 1), bare[0]);
      ReplaceEscapeShorter(Repaired(s, n - 1), bare[0]);
    }
  }

  lemma {:induction false} ReplaceEscapeShorter(s: string, c: char)
    ensures |ReplaceAll(s, ['\\', c], [c])| <= |s|
    decreases |s|
  {
    if |s| >= 2 {
      if s[..2] == ['\\', c] {
        ReplaceEscapeShorter(s[2..], c);
      } else {
        ReplaceEscapeShorter(s[1..], c);
      }
    }
  }

  /** A reply without backslashes is left as it is. */
  lemma {:induction false} RepairWithoutBackslash(s: string, n: nat)
    requires n <= |EscapeRepairs| && '\\' !in s
    ensures Repaired(s, n) == s
  {
    if n > 0 {
      RepairWithoutBackslash(s, n - 1);
      var escaped := EscapeRepairs[n - 1].0;
      assert escaped[0] == '\\';
      ReplaceAllAbsent(s, escaped, EscapeRepairs[n - 1].1);
    }
  }

  /** What decoding the validator's reply gives: the `relevant_text` of the decoded object
      (`null` when the key is missing), a decode error, or an exception that Python does not
      catch (`.get` on a decoded value that is not an object). */
  datatype Extraction = Extracted(relevantText: Value) | DecodeError | Uncaught

  /** `parsed.get('relevant_text')` on a decoded value. */
  function RelevantOf(parsed: Value): (r: Extraction)
    ensures r.Extracted? <==> parsed.JObj?
  {
    if parsed.JObj? then Extracted(GetOr(parsed.entries, "relevant_text", JNull)) else Uncaught
  }

  /** The text handed to `ast.literal_eval`: JSON's literals in Python spelling. */
  function PythonLiterals(s: string): string {
    ReplaceAll(ReplaceAll(ReplaceAll(s, "true", "True"), "false", "False"), "null", "None")
  }

  /** `extract_relevant_text(full_response)`: decode as it is; when that fails, decode the
      repaired text; when that fails too, a `literal_eval` result counts only if it is an
      object with a truthy `relevant_text`, and otherwise the decode error is raised. */
  function ExtractRelevantText(fullResponse: string, parse: string -> Option<Value>,
                               literalEval: string -> Option<Value>): (r: Extraction)
    ensures parse(fullResponse).Some? ==> r == RelevantOf(parse(fullResponse).value)
    ensures parse(fullResponse).None? && parse(Repaired(fullResponse, |EscapeRepairs|)).Some? ==>
              r == RelevantOf(parse(Repaired(fullResponse, |EscapeRepairs|)).value)
    ensures parse(fullResponse).None? && parse(Repaired(fullResponse, |EscapeRepairs|)).None? ==>
              !r.Uncaught? && (r.Extracted? ==> Truthy(r.relevantText))
    ensures parse(fullResponse).None? && parse(Repaired(fullResponse, |EscapeRepairs|)).None? ==>
              var evaluated := literalEval(PythonLiterals(Repaired(fullResponse, |EscapeRepairs|)));
              (r.Extracted? <==> evaluated.Some? && evaluated.value.JObj?
                                 && Truthy(GetOr(evaluated.value.entries, "relevant_text", JNull)))
              && (r.Extracted? ==> r == RelevantOf(evaluated.value))
  {
    match parse(fullResponse)
    case Some(parsed) => RelevantOf(parsed)
    case None =>
      var fixed := Repaired(fullResponse, |EscapeRepairs|);
      match parse(fixed)
      case Some(parsed) => RelevantOf(parsed)
      case None =>
        match literalEval(PythonLiterals(fixed))
        case Some(parsed) =>
          var r := RelevantOf(parsed);
          if r.Extracted? && Truthy(r.relevantText) then r else DecodeError
        case None => DecodeError
  }

  /** The repair is only tried after the first decoding fails: two decoders that agree on a
      reply they can decode extract the same text, whatever they do with the repaired one. */
  lemma RepairOnlyAfterFailure(fullResponse: string, parse1: string -> Option<Value>,
                               parse2: string -> Option<Value>, literalEval: string -> Option<Value>)
    requires parse1(fullResponse).Some? && parse1(fullResponse) == parse2(fullResponse)
    ensures ExtractRelevantText(fullResponse, parse1, literalEval)
            == ExtractRelevantText(fullResponse, parse2, literalEval)
  {
  }

  /** What `send_api_request` returns: `{"error": ...}` or `{"full_response": ...}`. */
  datatype ApiReply = ApiError(error: string) | FullResponse(text: string)

  /** What `validation_text` returns: `{"relevant_text": ...}`, `{"error": ...}`, or an
      exception that escapes it. */
  datatype Validation = Relevant(relevantText: Value) | ErrorReply(error: string) | Raises

  /** The steps after the request, on the reply `send` gave for the prompt. `errorIsChecked`
      says whether an error reply is recognised as one: as written, an error whose message is
      empty is falsy, so it is not, and `response["full_response"]` raises `KeyError`. */
  function ValidationOf(reply: ApiReply, parse: string -> Option<Value>, literalEval: string -> Option<Value>,
                        errorIsChecked: bool): (r: Validation)
    ensures r.Relevant? ==> Truthy(r.relevantText)
    ensures reply.FullResponse? ==>
              var e := ExtractRelevantText(reply.text, parse, literalEval);
              (e.Extracted? && Truthy(e.relevantText) ==> r == Relevant(e.relevantText))
              && (e.Extracted? && !Truthy(e.relevantText) ==>
                    r == ErrorReply("No 'relevant_text' field in the API response"))
              && (e.DecodeError? ==> r == ErrorReply("Error parsing full response as JSON"))
              && (e.Uncaught? ==> r == Raises)
    ensures r.Relevant? <==>
              (reply.FullResponse?
               && ExtractRelevantText(reply.text, parse, literalEval).Extracted?
               && Truthy(ExtractRelevantText(reply.text, parse, literalEval).relevantText))
  {
    match reply
    case ApiError(error) =>
      if error != "" || errorIsChecked then ErrorReply(error) else Raises
    case FullResponse(text) =>
      match ExtractRelevantText(text, parse, literalEval)
      case Uncaught => Raises
      case DecodeError => ErrorReply("Error parsing full response as JSON")
      case Extracted(v) =>
        if !Truthy(v) then ErrorReply("No 'relevant_text' field in the API response") else Relevant(v)
  }

  /** `validation_text(original, summary, model)` as written. */
  function ValidationTextAsWritten(original: string, summary: string, send: string -> ApiReply,
                                   parse: string -> Option<Value>, literalEval: string -> Option<Value>): (r: Validation)
    ensures var reply := send(ValidationPrompt(original, ValidationSummary(summary)));
            reply.ApiError? ==> r == (if reply.error != "" then ErrorReply(reply.error) else Raises)
    ensures var reply := send(ValidationPrompt(original, ValidationSummary(summary)));
            reply.FullResponse? ==>
              var e := ExtractRelevantText(reply.text, parse, literalEval);
              (e.Extracted? && Truthy(e.relevantText) ==> r == Relevant(e.relevantText))
              && (e.Extracted? && !Truthy(e.relevantText) ==>
                    r == ErrorReply("No 'relevant_text' field in the API response"))
              && (e.DecodeError? ==> r == ErrorReply("Error parsing full response as JSON"))
              && (e.Uncaught? ==> r == Raises)
    ensures r.Relevant? ==> Truthy(r.relevantText)
  {
    ValidationOf(send(ValidationPrompt(original, ValidationSummary(summary))), parse, literalEval, false)
  }

  /** An exception whose message is empty (`str(asyncio.TimeoutError())` is "") reaches
      `validation_text` as `{"error": ""}`, which is falsy; the function then raises instead of
      returning the error. */
  lemma EmptyErrorRaises(original: string, summary: string, send: string -> ApiReply,
                         parse: string -> Option<Value>, literalEval: string -> Option<Value>)
    requires send(ValidationPrompt(original, ValidationSummary(summary))) == ApiError("")
    ensures ValidationTextAsWritten(original, summary, send, parse, literalEval) == Raises
  {
  }

  /** `validation_text` as intended: every error reply of the request is returned. */
  function ValidationText(original: string, summary: string, send: string -> ApiReply,
                          parse: string -> Option<Value>, literalEval: string -> Option<Value>): (r: Validation)
    ensures var reply := send(ValidationPrompt(original, ValidationSummary(summary)));
            reply.ApiError? ==> r == ErrorReply(reply.error)
    ensures var reply := send(ValidationPrompt(original, ValidationSummary(summary)));
            reply.FullResponse? ==>
              var e := ExtractRelevantText(reply.text, parse, literalEval);
              (e.Extracted? && Truthy(e.relevantText) ==> r == Relevant(e.relevantText))
              && (e.Extracted? && !Truthy(e.relevantText) ==>
                    r == ErrorReply("No 'relevant_text' field in the API response"))
              && (e.DecodeError? ==> r == ErrorReply("Error parsing full response as JSON"))
              && (e.Uncaught? ==> r == Raises)
    ensures r.Relevant? ==> Truthy(r.relevantText)
  {
    ValidationOf(send(ValidationPrompt(original, ValidationSummary(summary))), parse, literalEval, true)
  }
}
