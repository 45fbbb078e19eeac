/**
 * `AnalyticsEngine`: what it does with the text its language model answers
 * (cleaning, quote stripping, length caps) and the fixed values it falls back
 * to when the call or the decoding fails. The model call is replaced by an
 * `Answer`; `json.loads` by a `Parser`.
 */
module Analytics {
  import opened Wrappers
  import opened Strings
  import opened JsonValues
  import SceneGeneration

  /** How one `llm.predict` call ended. */
  datatype Answer = Answered(text: string) | Failed(message: string)

  // ---------------------------------------------------------------------------
  // summarize

  /** The summary used when the call fails: the text itself, or its first 100 characters marked as cut. */
  function SummaryFallback(text: string): (r: string)
    ensures |text| <= 100 ==> r == text
    ensures |text| > 100 ==> |r| == 112 && StartsWith(r, "Summary: ") && EndsWith(r, "...") && r[9..109] == text[..100]
  {
    if |text| > 100 then "Summary: " + PyTake(text, 100) + "..." else text
  }

  /** `summarize`: the stripped answer, or the fallback. */
  function Summarize(text: string, answer: Answer): (r: string)
    ensures answer.Answered? ==> r == Strip(answer.text) && Stripped(r) && |r| <= |answer.text|
    ensures answer.Failed? ==> r == SummaryFallback(text)
  {
    match answer
    case Answered(response) => Strip(response)
    case Failed(_) => SummaryFallback(text)
  }

  // ---------------------------------------------------------------------------
  // The cleaning shared by classify and detect_patterns

  /** `t.split("```")[1]` for a text that starts with a fence: what lies between it and the next fence, or the end. */
  function BetweenFences(t: string): string
    requires StartsWith(t, SceneGeneration.Fence)
  {
    match IndexOf(t, SceneGeneration.Fence, 3)
    case Some(j) => t[3..j]
    case None => t[3..]
  }

  /** `if b.startswith("json"): b = b[4:]` */
  function DropJsonTag(b: string): string {
    if StartsWith(b, "json") then b[4..] else b
  }

  /** Strip; for a fenced answer keep only the first fenced block, without its `json` tag; strip again. */
  function CleanLlmJson(response: string): (r: string)
    ensures Stripped(r)
  {
    var t := Strip(response);
    Strip(if StartsWith(t, SceneGeneration.Fence) then DropJsonTag(BetweenFences(t)) else t)
  }

  /** An answer that is not fenced is only stripped. */
  lemma CleanLlmJsonUnfenced(response: string)
    requires !StartsWith(Strip(response), SceneGeneration.Fence)
    ensures CleanLlmJson(response) == Strip(response)
  {
    StripIdempotent(response);
  }

  /** The next fence after the opening one is the first backquote after it. */
  lemma NextFence(t: string, k: nat)
    requires StartsWith(t, SceneGeneration.Fence) && 3 <= k
    requires At(t, SceneGeneration.Fence, k)
    requires forall j :: 3 <= j < k ==> t[j] != '`'
    ensures IndexOf(t, SceneGeneration.Fence, 3) == Some(k)
  {
    var f := SceneGeneration.Fence;
    assert f[0] == '`';
    assert forall j :: 3 <= j < k ==> !At(t, f, j) by {
      forall j | 3 <= j < k
        ensures !At(t, f, j)
      {
        if j + 3 <= |t| {
          assert t[j..j + 3][0] == t[j];
        }
      }
    }
  }

  /** The first fenced block of a text is what lies between its first two fences. */
  lemma FirstBlock(t: string, tag: string, body: string, rest: string)
    requires '`' !in tag && '`' !in body
    requires t == SceneGeneration.Fence + tag + body + SceneGeneration.Fence + rest
    ensures BetweenFences(t) == tag + body
  {
    var f := SceneGeneration.Fence;
    var k := 3 + |tag| + |body|;
    assert t[..3] == f;
    assert t[k..k + 3] == f;
    assert forall j :: 3 <= j < 3 + |tag| ==> t[j] == tag[j - 3];
    assert forall j :: 3 + |tag| <= j < k ==> t[j] == body[j - 3 - |tag|];
    NextFence(t, k);
    assert t[3..k] == tag + body;
  }

  /** The `json` tag is dropped when present, and nothing is dropped otherwise. */
  lemma DropTagOf(tag: string, body: string)
    requires tag == "json" || (tag == "" && !StartsWith(body, "json"))
    ensures DropJsonTag(tag + body) == body
  {
    if tag == "json" {
      assert (tag + body)[..4] == "json";
      assert (tag + body)[4..] == body;
    } else {
      assert tag + body == body;
    }
  }

  /**
   * A fenced answer keeps the stripped body of its first block, with or
   * without the `json` tag; whatever follows the closing fence is dropped.
   */
  lemma CleanLlmJsonFenced(response: string, tag: string, body: string, rest: string)
    requires tag == "json" || (tag == "" && !StartsWith(body, "json"))
    requires '`' !in body
    requires Strip(response) == SceneGeneration.Fence + tag + body + SceneGeneration.Fence + rest
    ensures CleanLlmJson(response) == Strip(body)
  {
    var t := Strip(response);
    assert StartsWith(t, SceneGeneration.Fence) by {
      assert t[..3] == SceneGeneration.Fence;
    }
    FirstBlock(t, tag, body, rest);
    DropTagOf(tag, body);
  }

  // ---------------------------------------------------------------------------
  // classify

  const FallbackClassification: Json :=
    JObject([("genre", JString("Drama")), ("style", JString("Cinematic")), ("scene_type", JString("Setting"))])

  /** `classify`: the decoded cleaned answer, or the fixed classification when the call or the decoding fails. */
  function Classify(answer: Answer, parse: Parser): Json {
    match answer
    case Failed(_) => FallbackClassification
    case Answered(response) =>
      match parse(CleanLlmJson(response))
      case Success(v) => v
      case Failure(_) => FallbackClassification
  }

  /** Any failure gives the fixed classification; otherwise the decoded value is returned as it is. */
  lemma ClassifyOutcomes(answer: Answer, parse: Parser)
    ensures answer.Failed? ==> Classify(answer, parse) == FallbackClassification
    ensures answer.Answered? && parse(CleanLlmJson(answer.text)).Failure? ==> Classify(answer, parse) == FallbackClassification
    ensures answer.Answered? && parse(CleanLlmJson(answer.text)).Success? ==>
      Classify(answer, parse) == parse(CleanLlmJson(answer.text)).value
  {
  }

  /** The fixed classification reads as Drama, Cinematic, Setting. */
  lemma FallbackClassificationFields()
    ensures Get(FallbackClassification.fields, "genre") == Some(JString("Drama"))
    ensures Get(FallbackClassification.fields, "style") == Some(JString("Cinematic"))
    ensures Get(FallbackClassification.fields, "scene_type") == Some(JString("Setting"))
  {
    var fs := FallbackClassification.fields;
    assert fs[..2] == [("genre", JString("Drama")), ("style", JString("Cinematic"))];
    assert fs[..2][..1] == [("genre", JString("Drama"))];
  }

  // ---------------------------------------------------------------------------
  // detect_patterns: the scene lines

  /** Python's `str(v)` for scalars; containers are rendered by `repr`, which is not modelled. */
  function PyStr(v: Json, repr: Json -> string): string {
    match v
    case JNull => "None"
    case JBool(b) => if b then "True" else "False"
    case JNumber(n) => IntToString(n)
    case JString(s) => s
    case _ => repr(v)
  }

  /** `f"Scene {number}: {text}"` */
  function SceneLine(number: Json, text: Json, repr: Json -> string): (line: string)
    ensures StartsWith(line, "Scene ")
  {
    var line := "Scene " + PyStr(number, repr) + ": " + PyStr(text, repr);
    assert line[..6] == "Scene ";
    line
  }

  /** The line for an object entry at 0-based index `i`: its `scene_number` (else `i + 1`) and its `scene_text` (else empty). */
  function PatternLine(i: nat, fields: seq<(string, Json)>, repr: Json -> string): string {
    SceneLine(Get(fields, "scene_number").GetOr(JNumber(i + 1)), Get(fields, "scene_text").GetOr(JString("")), repr)
  }

  /** The comprehension over `enumerate(scenes)`; `None` when an entry is not an object, where `.get` raises. */
  function PatternLines(scenes: seq<Json>, repr: Json -> string): (r: Option<seq<string>>)
    ensures r.None? <==> exists j :: 0 <= j < |scenes| && !scenes[j].JObject?
    ensures r.Some? ==> |r.value| == |scenes|
    ensures r.Some? ==> forall j :: 0 <= j < |scenes| ==> r.value[j] == PatternLine(j, scenes[j].fields, repr)
  {
    if forall j :: 0 <= j < |scenes| ==> scenes[j].JObject? then
      Some(seq(|scenes|, j requires 0 <= j < |scenes| => PatternLine(j, scenes[j].fields, repr)))
    else None
  }

  /** Every line reads `Scene ...`. */
  lemma PatternLinesShape(scenes: seq<Json>, repr: Json -> string)
    requires PatternLines(scenes, repr).Some?
    ensures forall j :: 0 <= j < |scenes| ==> StartsWith(PatternLines(scenes, repr).value[j], "Scene ")
  {
  }

  /** The text handed to the model: the lines joined by newlines. */
  function ScenesText(lines: seq<string>): string {
    Join("\n", lines)
  }

  /** Splitting the scenes text at newlines gives back the lines, when no scene text holds a newline. */
  lemma ScenesTextRoundTrip(scenes: seq<Json>, repr: Json -> string, lines: seq<string>)
    requires PatternLines(scenes, repr) == Some(lines) && scenes != []
    requires forall k :: 0 <= k < |lines| ==> '\n' !in lines[k]
    ensures SplitOn(ScenesText(lines), '\n') == lines
  {
    SplitJoinRoundTrip(lines, '\n');
  }

  /**
   * What `detect_patterns` returns: the decoded cleaned answer, or its fixed
   * record (`Linear`, no themes, no arcs, score 0.7, `Medium`), whose score is
   * a float and is kept symbolic here.
   */
  datatype Patterns = Detected(value: Json) | DefaultPatterns

  /** `detect_patterns`; `answer` is how the call on the scenes text ended. */
  function DetectPatterns(scenes: seq<Json>, repr: Json -> string, answer: Answer, parse: Parser): (r: Patterns)
    ensures PatternLines(scenes, repr).None? ==> r == DefaultPatterns
    ensures answer.Failed? ==> r == DefaultPatterns
  {
    match PatternLines(scenes, repr)
    case None => DefaultPatterns
    case Some(_) =>
      match answer
      case Failed(_) => DefaultPatterns
      case Answered(response) =>
        match parse(CleanLlmJson(response))
        case Success(v) => Detected(v)
        case Failure(_) => DefaultPatterns
  }

  // ---------------------------------------------------------------------------
  // generate_title

  /** Remove one pair of matching surrounding double, else single, quotes (`title[1:-1]`). */
  function Unquote(t: string): string {
    if StartsWith(t, "\"") && EndsWith(t, "\"") then PySlice(t, 1, -1)
    else if StartsWith(t, "'") && EndsWith(t, "'") then PySlice(t, 1, -1)
    else t
  }

  /** `if len(title) > 50: title = title[:47] + "..."` */
  function CapTitle(t: string): (r: string)
    ensures |r| <= 50
    ensures |t| <= 50 ==> r == t
    ensures |t| > 50 ==> r == t[..47] + "..."
  {
    if |t| > 50 then PyTake(t, 47) + "..." else t
  }

  /** The title made of an answer: stripped, unquoted, capped, stripped again. */
  function TitleOf(response: string): (r: string)
    ensures |r| <= 50 && Stripped(r)
  {
    Strip(CapTitle(Unquote(Strip(response))))
  }

  /** A title in matching quotes loses them (and the whitespace inside). */
  lemma QuotedTitle(response: string, q: char, inner: string)
    requires q == '"' || q == '\''
    requires Strip(response) == [q] + inner + [q] && |inner| <= 50
    ensures TitleOf(response) == Strip(inner)
  {
    var t := Strip(response);
    assert t[..1] == [q] && t[|t| - 1..] == [q];
    assert PySlice(t, 1, -1) == inner;
  }

  /** An unquoted title of at most 50 characters is the stripped answer itself. */
  lemma PlainTitle(response: string)
    requires var t := Strip(response); |t| <= 50 && (t == [] || (t[0] != '"' && t[0] != '\''))
    ensures TitleOf(response) == Strip(response)
  {
    var t := Strip(response);
    if t != [] {
      assert t[..1][0] == t[0];
    }
    StripIdempotent(response);
  }

  /** An over-long title is marked as cut. */
  lemma LongTitle(response: string)
    requires |Unquote(Strip(response))| > 50
    ensures EndsWith(TitleOf(response), "...")
  {
    StripKeepsDots(Unquote(Strip(response))[..47]);
  }

  lemma StripKeepsDots(x: string)
    ensures EndsWith(Strip(x + "..."), "...")
  {
    TrimEndNoop("...");
    if TrimStart(x) != [] {
      TrimStartAppend(x, "...");
      TrimEndAppend(TrimStart(x), "...");
    } else {
      TrimStartDropsSpace(x);
      assert x[..|x| - |TrimStart(x)|] == x;
      TrimStartSpacePrefix(x, "...");
      TrimStartNoop("...");
    }
  }

  /** The first six words joined by spaces, with `"..."` when the prompt has more. */
  function SixWordTitle(prompt: string): string {
    Join(" ", PyTake(Words(prompt), 6)) + (if |Words(prompt)| > 6 then "..." else "")
  }

  /** A prompt of at most six words gives a title of exactly those words. */
  lemma ShortPromptTitle(prompt: string)
    requires |Words(prompt)| <= 6
    ensures Words(SixWordTitle(prompt)) == Words(prompt)
  {
    WordsAreWords(prompt);
    assert PyTake(Words(prompt), 6) == Words(prompt);
    assert SixWordTitle(prompt) == Join(" ", Words(prompt));
    WordsOfJoin(Words(prompt));
  }

  /** A longer prompt gives its first six words and a trailing `"..."`. */
  lemma LongPromptTitle(prompt: string)
    requires |Words(prompt)| > 6
    ensures var head := Join(" ", Words(prompt)[..6]);
      SixWordTitle(prompt) == head + "..." && Words(head) == Words(prompt)[..6]
  {
    WordsAreWords(prompt);
    WordsOfJoin(Words(prompt)[..6]);
  }

  /** `generate_title`: the cleaned answer, or the six-word title when the call fails. */
  function GenerateTitle(prompt: string, answer: Answer): (r: string)
    ensures answer.Answered? ==> r == TitleOf(answer.text) && |r| <= 50
    ensures answer.Failed? ==> r == SixWordTitle(prompt)
  {
    match answer
    case Answered(response) => TitleOf(response)
    case Failed(_) => SixWordTitle(prompt)
  }
}
