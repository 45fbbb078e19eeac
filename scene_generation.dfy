/**
 * Scene decomposition: what `SceneGenerator.generate_scenes` does with the
 * outcome of its one text-generation call. The call itself, the worker thread
 * and the 30-second join are replaced by an `LlmOutcome`; `json.loads` by a
 * `Parser`.
 */
module SceneGeneration {
  import opened Wrappers
  import opened Strings
  import opened JsonValues

  /** `MAX_SCENES`, the default bound on the number of scenes kept. */
  const MaxScenes: int := 8

  const Fence: string := "```"

  /** How the worker running `llm.predict` ended, as seen after the join. */
  datatype LlmOutcome =
    | TimedOut                  // still alive after the deadline
    | Raised(message: string)   // the call raised; `str(e)`
    | Returned(text: string)    // the call returned this text
    | Vanished                  // the worker ended with neither a result nor an exception

  const TimeoutMessage: string :=
    "Scene generation " + "timed out after 30 " + "seconds. API " + "quota" + " may be exceeded."

  const QuotaPrefix: string := "API " + "quota" + " exceeded: "

  // Assembled from named words, so that which letters it holds can be checked word by word.
  const SceneWord: string := "Scene "
  const GenerationWord: string := "generation "
  const FailedWord: string := "failed "
  const DashNoWord: string := "- no "
  const ResultWord: string := "result "
  const ReturnedWord: string := "returned"
  const NoResultMessage: string := SceneWord + GenerationWord + FailedWord + DashNoWord + ResultWord + ReturnedWord

  /** The rate-limit test of `generate_scenes` (its own vocabulary). */
  predicate IsQuotaError(message: string) {
    Contains(message, "429") || Contains(Lower(message), "quota")
    || Contains(Lower(message), "rate limit") || Contains(message, "ResourceExhausted")
  }

  // ---------------------------------------------------------------------------
  // clean_json_response

  /** `re.sub(r'^```(?:json)?\s*', '', t)` on a text that starts with a fence. */
  function DropOpeningFence(t: string): string
    requires StartsWith(t, Fence)
  {
    var rest := t[|Fence|..];
    TrimStart(if StartsWith(rest, "json") then rest[4..] else rest)
  }

  /**
   * `re.sub(r'\s*```$', '', t)`: a closing fence at the very end goes, with
   * the whitespace before it. (The text it is applied to never ends in a line
   * break, so `$` can only match at the end.)
   */
  function DropClosingFence(t: string): string {
    if EndsWith(t, Fence) then TrimEnd(t[..|t| - |Fence|]) else t
  }

  /** `clean_json_response`: strip, remove a surrounding code fence, strip again. */
  function CleanJsonResponse(s: string): (r: string)
    ensures Stripped(r)
  {
    var t := Strip(s);
    if StartsWith(t, Fence) then Strip(DropClosingFence(DropOpeningFence(t))) else Strip(t)
  }

  /** A stripped text without a fence is left as it is. */
  lemma CleanOfStripped(t: string)
    requires Strip(t) == t && !StartsWith(t, Fence)
    ensures CleanJsonResponse(t) == t
  {
    CleanUnfenced(t);
  }

  /** Without a fence, the response is only stripped. */
  lemma CleanUnfenced(s: string)
    requires !StartsWith(Strip(s), Fence)
    ensures CleanJsonResponse(s) == Strip(s)
  {
    StripIdempotent(s);
  }

  /** On a fenced text, `clean_json_response` drops both fences and strips what is left. */
  lemma CleanFenced(s: string)
    requires StartsWith(Strip(s), Fence)
    ensures CleanJsonResponse(s) == Strip(DropClosingFence(DropOpeningFence(Strip(s))))
  {
  }

  lemma NoTagInShortTail(body: string)
    requires !StartsWith(body, "json")
    ensures !StartsWith(body + Fence, "json")
  {
    if |body| >= 4 {
      assert (body + Fence)[..4] == body[..4];
    } else {
      assert (body + Fence)[|body|] == '`';
      assert forall k :: 0 <= k < 4 ==> "json"[k] != '`';
    }
  }

  /** The opening fence and its `json` tag go, and the whitespace after them. */
  lemma DropOpeningTagged(body: string)
    ensures StartsWith(Fence + "json" + body + Fence, Fence)
    ensures DropOpeningFence(Fence + "json" + body + Fence) == TrimStart(body + Fence)
  {
    var t := Fence + "json" + body + Fence;
    assert t[..|Fence|] == Fence;
    var rest := t[|Fence|..];
    assert rest == "json" + (body + Fence);
    assert rest[..4] == "json";
    assert rest[4..] == body + Fence;
  }

  /** Without a tag, only the opening fence and the whitespace after it go. */
  lemma DropOpeningBare(body: string)
    requires !StartsWith(body, "json")
    ensures StartsWith(Fence + body + Fence, Fence)
    ensures DropOpeningFence(Fence + body + Fence) == TrimStart(body + Fence)
  {
    var t := Fence + body + Fence;
    assert t[..|Fence|] == Fence;
    var rest := t[|Fence|..];
    assert rest == body + Fence;
    NoTagInShortTail(body);
  }

  /** A closing fence at the end goes, with the whitespace before it. */
  lemma DropClosingOf(x: string)
    ensures DropClosingFence(x + Fence) == TrimEnd(x)
  {
    var t := x + Fence;
    assert t[|t| - |Fence|..] == Fence;
    assert t[..|t| - |Fence|] == x;
  }

  /** What is left of `body + "```"` once the opening fence's whitespace and the closing fence are gone. */
  lemma FenceTail(body: string)
    ensures DropClosingFence(TrimStart(body + Fence)) == Strip(body)
  {
    if TrimStart(body) == [] {
      BlankFenceTail(body);
    } else {
      TrimStartAppend(body, Fence);
      DropClosingOf(TrimStart(body));
    }
  }

  /** A body of whitespace only leaves nothing. */
  lemma BlankFenceTail(body: string)
    requires TrimStart(body) == []
    ensures DropClosingFence(TrimStart(body + Fence)) == Strip(body)
  {
    assert AllSpace(body) by {
      TrimStartDropsSpace(body);
      assert body[..|body|] == body;
    }
    TrimStartSpacePrefix(body, Fence);
    assert TrimStart(Fence) == Fence by { TrimStartNoop(Fence); }
    assert Fence == [] + Fence;
    DropClosingOf([]);
  }

  /** A fenced body tagged `json` comes out as the body, stripped. */
  lemma CleanTaggedFence(s: string, body: string)
    requires Strip(s) == Fence + "json" + body + Fence
    ensures CleanJsonResponse(s) == Strip(body)
  {
    DropOpeningTagged(body);
    CleanFenced(s);
    FenceTail(body);
    StripIdempotent(body);
  }

  /** A fenced body without a tag comes out as the body, stripped. */
  lemma CleanBareFence(s: string, body: string)
    requires Strip(s) == Fence + body + Fence
    requires !StartsWith(body, "json")
    ensures CleanJsonResponse(s) == Strip(body)
  {
    DropOpeningBare(body);
    CleanFenced(s);
    FenceTail(body);
    StripIdempotent(body);
  }

  // ---------------------------------------------------------------------------
  // The fallbacks

  /**
   * `re.search(r'\[.*\]', t, re.DOTALL)`: the greedy span from the first `[`
   * to the last `]`, present exactly when some `[` comes before some `]`.
   */
  function BracketSpan(t: string): Option<string> {
    var first := FirstIndexOfChar(t, '[');
    var last := LastIndexOfChar(t, ']');
    if first.Some? && last.Some? && first.value < last.value then
      Some(t[first.value..last.value + 1])
    else
      None
  }

  /** Some `[` before some `]` is exactly when there is a span; it is the greedy one. */
  lemma BracketSpanIsGreedy(t: string)
    ensures BracketSpan(t).Some? <==> exists i, j :: 0 <= i < j < |t| && t[i] == '[' && t[j] == ']'
    ensures BracketSpan(t).Some? ==>
      exists i, j :: 0 <= i < j < |t| && BracketSpan(t).value == t[i..j + 1] && t[i] == '[' && t[j] == ']'
                     && (forall k :: 0 <= k < i ==> t[k] != '[')
                     && (forall k :: j < k < |t| ==> t[k] != ']')
  {
    FirstIndexOfCharIsFirst(t, '[');
    LastIndexOfCharIsLast(t, ']');
  }

  /** `story[:200] + "..." if len(story) > 200 else story` */
  function FallbackSceneText(story: string): (r: string)
    ensures |story| <= 200 ==> r == story
    ensures |story| > 200 ==> r == story[..200] + "..." && |r| == 203
  {
    if |story| > 200 then PyTake(story, 200) + "..." else story
  }

  /** `f"Cinematic scene: {story[:150]}"` */
  function FallbackScenePrompt(story: string): (r: string)
    ensures r == "Cinematic scene: " + story[..Min(150, |story|)]
  {
    "Cinematic scene: " + PyTake(story, 150)
  }

  /** The single scene synthesised from the story when nothing in the response parses. */
  function FallbackScene(story: string): Json {
    JObject([("scene_number", JNumber(1)),
             ("scene_text", JString(FallbackSceneText(story))),
             ("cinematic_prompt", JString(FallbackScenePrompt(story)))])
  }

  /** `if not isinstance(scenes, list): scenes = [scenes]` */
  function AsList(v: Json): (r: seq<Json>)
    ensures v.JArray? ==> r == v.items
    ensures !v.JArray? ==> r == [v]
  {
    if v.JArray? then v.items else [v]
  }

  /** `if len(scenes) > max_scenes: scenes = scenes[:max_scenes]` */
  function Truncate(scenes: seq<Json>, maxScenes: int): seq<Json> {
    if |scenes| > maxScenes then PyTake(scenes, maxScenes) else scenes
  }

  /** For a bound that is not negative, truncation keeps the first `min(len, max)` scenes in order. */
  lemma TruncateKeepsPrefix(scenes: seq<Json>, maxScenes: int)
    requires maxScenes >= 0
    ensures Truncate(scenes, maxScenes) == scenes[..Min(|scenes|, maxScenes)]
  {
  }

  /** A bound that is not negative is respected. */
  lemma TruncateBound(scenes: seq<Json>, maxScenes: int)
    ensures |scenes| > maxScenes ==> Truncate(scenes, maxScenes) == PyTake(scenes, maxScenes)
    ensures |scenes| <= maxScenes ==> Truncate(scenes, maxScenes) == scenes
    ensures maxScenes >= 0 ==> |Truncate(scenes, maxScenes)| <= maxScenes
  {
  }

  /** The parse chain: the cleaned text, then the bracket span (unguarded), then the fallback scene. */
  function ParseScenes(story: string, cleaned: string, parse: Parser): Result<Json> {
    match parse(cleaned)
    case Success(v) => Success(v)
    case Failure(_) =>
      match BracketSpan(cleaned)
      case Some(span) => parse(span)
      case None => Success(JArray([FallbackScene(story)]))
  }

  /** The scenes `generate_scenes` makes of the text the call returned. */
  function DecodeScenes(maxScenes: int, story: string, text: string, parse: Parser): Result<seq<Json>> {
    var parsed := ParseScenes(story, CleanJsonResponse(text), parse);
    if parsed.Failure? then Failure(parsed.error) else Success(Truncate(AsList(parsed.value), maxScenes))
  }

  /** What `generate_scenes` returns or raises, given how the text-generation call ended. */
  function Decomposition(maxScenes: int, story: string, outcome: LlmOutcome, parse: Parser): Result<seq<Json>> {
    match outcome
    case TimedOut => Failure(TimeoutMessage)
    case Raised(m) => Failure(if IsQuotaError(m) then QuotaPrefix + m else m)
    case Vanished => Failure(NoResultMessage)
    case Returned(text) => DecodeScenes(maxScenes, story, text, parse)
  }

  /** `SceneGenerator`: holds the scene bound; the model and prompt template are not modelled. */
  class SceneGenerator {
    const maxScenes: int

    constructor (maxScenes: int := MaxScenes)
      ensures this.maxScenes == maxScenes
    {
      this.maxScenes := maxScenes;
    }

    /** `generate_scenes`: classify the call's failure, or clean, parse, wrap and truncate its text. */
    method GenerateScenes(story: string, outcome: LlmOutcome, parse: Parser) returns (r: Result<seq<Json>>)
      ensures r == Decomposition(maxScenes, story, outcome, parse)
      ensures r.Success? && maxScenes >= 0 ==> |r.value| <= maxScenes
    {
      if outcome.TimedOut? {
        return Failure(TimeoutMessage);
      }
      if outcome.Raised? {
        var errorMsg := outcome.message;
        if IsQuotaError(errorMsg) {
          return Failure(QuotaPrefix + errorMsg);
        }
        return Failure(errorMsg);
      }
      if outcome.Vanished? {
        return Failure(NoResultMessage);
      }
      assert outcome == Returned(outcome.text);
      var text := outcome.text;
      var responseText := CleanJsonResponse(text);
      var scenes: Json;
      var first := parse(responseText);
      if first.Success? {
        scenes := first.value;
      } else {
        var jsonMatch := BracketSpan(responseText);
        if jsonMatch.Some? {
          var second := parse(jsonMatch.value);
          if second.Failure? {
            SpanErrorEscapes(story, responseText, parse);
            DecodeOfFailed(maxScenes, story, text, parse, second.error);
            return Failure(second.error);
          }
          scenes := second.value;
        } else {
          scenes := JArray([FallbackScene(story)]);
        }
      }
      assert ParseScenes(story, responseText, parse) == Success(scenes);
      DecodeOfParsed(maxScenes, story, text, parse, scenes);
      var list: seq<Json>;
      if scenes.JArray? {
        list := scenes.items;
      } else {
        list := [scenes];
      }
      ghost var whole := list;
      assert whole == AsList(scenes);
      TruncateBound(whole, maxScenes);
      if |list| > maxScenes {
        list := PyTake(list, maxScenes);
      }
      return Success(list);
    }
  }

  // ---------------------------------------------------------------------------
  // Properties of the decomposition

  /** Once the parse chain has produced a value, the scenes are that value as a list, truncated. */
  lemma DecodeOfParsed(maxScenes: int, story: string, text: string, parse: Parser, v: Json)
    requires ParseScenes(story, CleanJsonResponse(text), parse) == Success(v)
    ensures Decomposition(maxScenes, story, Returned(text), parse) == Success(Truncate(AsList(v), maxScenes))
  {
  }

  /** With nothing parseable and no bracket span, the result is exactly the one fallback scene. */
  lemma MalformedWithoutSpanFallsBack(maxScenes: int, story: string, text: string, parse: Parser)
    requires maxScenes >= 1
    requires parse(CleanJsonResponse(text)).Failure?
    requires BracketSpan(CleanJsonResponse(text)).None?
    ensures Decomposition(maxScenes, story, Returned(text), parse) == Success([FallbackScene(story)])
  {
    var fallback := JArray([FallbackScene(story)]);
    assert ParseScenes(story, CleanJsonResponse(text), parse) == Success(fallback);
    DecodeOfParsed(maxScenes, story, text, parse, fallback);
  }

  /** A failure of the parse chain is the failure of the decomposition. */
  lemma DecodeOfFailed(maxScenes: int, story: string, text: string, parse: Parser, e: string)
    requires ParseScenes(story, CleanJsonResponse(text), parse) == Failure(e)
    ensures Decomposition(maxScenes, story, Returned(text), parse) == Failure(e)
  {
  }

  /** The bracket span is parsed without a guard: when it does not parse, its decode error escapes. */
  lemma MalformedSpanRaises(maxScenes: int, story: string, text: string, parse: Parser)
    requires parse(CleanJsonResponse(text)).Failure?
    requires BracketSpan(CleanJsonResponse(text)).Some?
    requires parse(BracketSpan(CleanJsonResponse(text)).value).Failure?
    ensures Decomposition(maxScenes, story, Returned(text), parse)
            == Failure(parse(BracketSpan(CleanJsonResponse(text)).value).error)
  {
    var cleaned := CleanJsonResponse(text);
    SpanErrorEscapes(story, cleaned, parse);
    DecodeOfFailed(maxScenes, story, text, parse, parse(BracketSpan(cleaned).value).error);
  }

  /** At the level of the parse chain: an unparseable span's error is the chain's result. */
  lemma SpanErrorEscapes(story: string, cleaned: string, parse: Parser)
    requires parse(cleaned).Failure?
    requires BracketSpan(cleaned).Some?
    requires parse(BracketSpan(cleaned).value).Failure?
    ensures ParseScenes(story, cleaned, parse) == Failure(parse(BracketSpan(cleaned).value).error)
  {
  }

  lemma NotFenced(t: string)
    requires t != [] && t[0] != '`'
    ensures !StartsWith(t, Fence)
  {
    if |t| >= |Fence| {
      assert t[..|Fence|][0] != Fence[0];
    }
  }

  /** A text from `[` to `]` is left alone by `clean_json_response`. */
  lemma BracketedIsClean(t: string)
    requires |t| >= 2 && t[0] == '[' && t[|t| - 1] == ']'
    ensures CleanJsonResponse(t) == t
  {
    NotFenced(t);
    assert Strip(t) == t by { StripNoop(t); }
    CleanOfStripped(t);
  }

  /** A text from `[` to `]` is its own bracket span. */
  lemma BracketedIsOwnSpan(t: string)
    requires |t| >= 2 && t[0] == '[' && t[|t| - 1] == ']'
    ensures BracketSpan(t) == Some(t)
  {
    assert FirstIndexOfChar(t, '[') == Some(0);
    assert LastIndexOfChar(t, ']') == Some(|t| - 1);
    assert t[0..|t|] == t;
  }

  /**
   * So decomposition can fail on malformed output: a text in brackets is its
   * own bracket span, and when the parser rejects it the second parse fails too
   * (for instance `[x]`).
   */
  lemma MalformedOutputCanFail(maxScenes: int, story: string, text: string, parse: Parser)
    requires |text| >= 2 && text[0] == '[' && text[|text| - 1] == ']'
    requires parse(text).Failure?
    ensures Decomposition(maxScenes, story, Returned(text), parse) == Failure(parse(text).error)
  {
    BracketedIsClean(text);
    BracketedIsOwnSpan(text);
    SpanErrorEscapes(story, text, parse);
    DecodeOfFailed(maxScenes, story, text, parse, parse(text).error);
  }

  /** A parsed list is kept in order, cut to the first `min(len, max_scenes)` entries. */
  lemma ParsedListIsPrefix(maxScenes: int, story: string, text: string, parse: Parser, items: seq<Json>)
    requires maxScenes >= 0
    requires parse(CleanJsonResponse(text)) == Success(JArray(items))
    ensures Decomposition(maxScenes, story, Returned(text), parse).Success?
    ensures Decomposition(maxScenes, story, Returned(text), parse).value <= items
    ensures |Decomposition(maxScenes, story, Returned(text), parse).value| == Min(|items|, maxScenes)
  {
    ListChainPrefix(maxScenes, story, CleanJsonResponse(text), parse, items);
    DecodeOfParsed(maxScenes, story, text, parse, JArray(items));
  }

  /** The parse chain passes a parsed list through, and truncation keeps its prefix. */
  lemma ListChainPrefix(maxScenes: int, story: string, cleaned: string, parse: Parser, items: seq<Json>)
    requires maxScenes >= 0
    requires parse(cleaned) == Success(JArray(items))
    ensures ParseScenes(story, cleaned, parse) == Success(JArray(items))
    ensures Truncate(AsList(JArray(items)), maxScenes) <= items
    ensures |Truncate(AsList(JArray(items)), maxScenes)| == Min(|items|, maxScenes)
  {
    TruncateKeepsPrefix(items, maxScenes);
  }

  /** A parsed value that is not a list becomes the only scene. */
  lemma ParsedValueIsWrapped(maxScenes: int, story: string, text: string, parse: Parser, v: Json)
    requires maxScenes >= 1
    requires parse(CleanJsonResponse(text)) == Success(v) && !v.JArray?
    ensures Decomposition(maxScenes, story, Returned(text), parse) == Success([v])
  {
    assert ParseScenes(story, CleanJsonResponse(text), parse) == Success(v);
    DecodeOfParsed(maxScenes, story, text, parse, v);
  }

  /** The timeout message carries the word the quota tests look for. */
  lemma TimeoutMentionsQuota()
    ensures Contains(Lower(TimeoutMessage), "quota")
  {
    LowerNoop("quota");
    ContainsAt("quota", "quota", 0);
    LowerContainsWithin("Scene generation " + "timed out after 30 " + "seconds. API ", "quota", " may be exceeded.", "quota");
  }

  /** Every quota error `generate_scenes` re-raises mentions quota. */
  lemma QuotaPrefixMentionsQuota(m: string)
    ensures Contains(Lower(QuotaPrefix + m), "quota")
  {
    LowerNoop("quota");
    ContainsAt("quota", "quota", 0);
    assert QuotaPrefix + m == "API " + "quota" + (" exceeded: " + m);
    LowerContainsWithin("API ", "quota", " exceeded: " + m, "quota");
  }

  /**
   * A raised error is re-raised prefixed when it is a quota error and unchanged
   * otherwise, so the re-raised message is a quota error exactly when the original is.
   */
  lemma RaisedErrorClassified(maxScenes: int, story: string, m: string, parse: Parser)
    ensures var r := Decomposition(maxScenes, story, Raised(m), parse);
      && r.Failure?
      && (IsQuotaError(m) ==> r.error == QuotaPrefix + m)
      && (!IsQuotaError(m) ==> r.error == m)
      && (IsQuotaError(r.error) <==> IsQuotaError(m))
  {
    QuotaPrefixMentionsQuota(m);
  }
}
