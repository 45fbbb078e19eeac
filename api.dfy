/**
 * The glue in the web layer: the scene-count clamp, the fallback title and the
 * quota fallback of the scene endpoint; the image loop with its rate-limit
 * stop and three-way summary; the history search and filter. Routing,
 * authentication, the database and the thread pool are not modelled: rows
 * come in as values and each scene's future is a `SceneRun`.
 */
module Api {
  import opened Wrappers
  import opened Strings
  import opened JsonValues
  import opened SceneGeneration
  import opened ImageGeneration
  import Analytics
  import Models

  // ---------------------------------------------------------------------------
  // The rate-limit vocabularies of the web layer

  /** The scene endpoint's test of a decomposition error (its own copy of the vocabulary). */
  predicate IsSceneQuotaError(m: string) {
    Contains(Lower(m), "quota") || Contains(m, "429") || Contains(Lower(m), "rate limit") || Contains(m, "ResourceExhausted")
  }

  /** The image loop's test of a per-scene error. */
  predicate IsImageRateLimit(m: string) {
    Contains(m, "429") || Contains(Lower(m), "rate limit") || Contains(Lower(m), "throttled") || Contains(Lower(m), "quota")
  }

  /** The image endpoint's outer handler: like the loop's test, but without `quota`. */
  predicate IsOuterRateLimit(m: string) {
    Contains(m, "429") || Contains(Lower(m), "rate limit") || Contains(Lower(m), "throttled")
  }

  /** The scene endpoint and the decomposer use the same four tests, in another order. */
  lemma SceneVocabulariesAgree(m: string)
    ensures IsSceneQuotaError(m) <==> IsQuotaError(m)
  {
  }

  /** Whatever the outer handler calls a rate limit the loop does too. */
  lemma OuterImpliesImage(m: string)
    ensures IsOuterRateLimit(m) ==> IsImageRateLimit(m)
  {
  }

  /** `quota` stops the image loop, but the outer handler does not see it as a rate limit. */
  lemma QuotaOnlyInLoop()
    ensures IsImageRateLimit("quota") && !IsOuterRateLimit("quota")
  {
    LowerNoop("quota");
    ContainsAt("quota", "quota", 0);
    MissingCharNotContained("quota", "429", 0);
  }

  lemma ThrottledStopsImages()
    ensures IsImageRateLimit("throttled")
  {
    LowerNoop("throttled");
    ContainsAt("throttled", "throttled", 0);
  }

  lemma ThrottledNotQuota(m: string)
    requires m == "throttled"
    ensures !IsSceneQuotaError(m) && !IsQuotaError(m)
  {
    assert 'q' !in m && 'Q' !in m && '4' !in m;
    LowerLacksLetter(m, 'q');
    MissingCharNotContained(m, "429", 0);
    MissingCharNotContained(Lower(m), "quota", 0);
  }

  /** `throttled` stops the image loop, but the decomposer and the scene endpoint pass it on. */
  lemma ThrottledOnlyForImages()
    ensures IsImageRateLimit("throttled") && !IsSceneQuotaError("throttled") && !IsQuotaError("throttled")
  {
    ThrottledStopsImages();
    ThrottledNotQuota("throttled");
  }

  lemma ExhaustedIsQuota()
    ensures IsSceneQuotaError("ResourceExhausted")
  {
    ContainsAt("ResourceExhausted", "ResourceExhausted", 0);
  }

  lemma ExhaustedNotImageRateLimit(m: string)
    requires m == "ResourceExhausted"
    ensures !IsImageRateLimit(m)
  {
    assert 'l' !in m && 'L' !in m && 'q' !in m && 'Q' !in m && '4' !in m;
    NotImageRateLimit(m);
  }

  /** `ResourceExhausted` is a quota error for scenes only. */
  lemma ExhaustedOnlyForScenes()
    ensures IsSceneQuotaError("ResourceExhausted") && !IsImageRateLimit("ResourceExhausted")
  {
    ExhaustedIsQuota();
    ExhaustedNotImageRateLimit("ResourceExhausted");
  }

  /** No digit 4, `q` or `l` in either case: then none of the image-side words can occur. */
  predicate AvoidsImageWords(m: string) {
    '4' !in m && 'q' !in m && 'Q' !in m && 'l' !in m && 'L' !in m
  }

  lemma NotImageRateLimit(m: string)
    requires AvoidsImageWords(m)
    ensures !IsImageRateLimit(m) && !IsOuterRateLimit(m)
  {
    MissingCharNotContained(m, "429", 0);
    LowerLacksLetter(m, 'l');
    LowerLacksLetter(m, 'q');
    MissingCharNotContained(Lower(m), "rate limit", 5);
    MissingCharNotContained(Lower(m), "throttled", 6);
    MissingCharNotContained(Lower(m), "quota", 0);
  }

  lemma EmptyPromptAvoids()
    ensures AvoidsImageWords(EmptyPromptMessage)
  {
    assert AvoidsImageWords(EmptyWord);
    assert AvoidsImageWords(ImageGeneration.SceneWord);
    assert AvoidsImageWords(PromptWord);
  }

  lemma ImageTimeoutAvoids()
    ensures AvoidsImageWords(ImageTimeoutMessage)
  {
    assert AvoidsImageWords(ImageWord);
    assert AvoidsImageWords(ImageGeneration.GenerationWord);
    assert AvoidsImageWords(TimeoutWord);
  }

  lemma NoImageAvoids()
    ensures AvoidsImageWords(NoImageMessage)
  {
    assert AvoidsImageWords(NoWord);
    assert AvoidsImageWords(LowerImageWord);
    assert AvoidsImageWords(ImageGeneration.ReturnedWord);
  }

  /** The errors the image generator raises itself are per-scene failures, never a stop. */
  lemma GeneratorErrorsAreNotRateLimits()
    ensures !IsImageRateLimit(ImageTimeoutMessage)
    ensures !IsImageRateLimit(NoImageMessage)
    ensures !IsImageRateLimit(EmptyPromptMessage)
  {
    ImageTimeoutAvoids();
    NoImageAvoids();
    EmptyPromptAvoids();
    NotImageRateLimit(ImageTimeoutMessage);
    NotImageRateLimit(NoImageMessage);
    NotImageRateLimit(EmptyPromptMessage);
  }

  // ---------------------------------------------------------------------------
  // The 300-second time-out around each scene

  /** The message raised when a scene's future is not done after 300 seconds, split at its only `l`. */
  const TimedWord: string := "timed "
  const OutWord: string := "out "
  const AfterWord: string := "after "
  const FiveWord: string := "5 "
  const MinutesWord: string := "minutes "
  const IncWord: string := "(inc"
  const UdingWord: string := "uding "
  const RetriesWord: string := "retries)"
  const OverrunHead: string := ImageWord + ImageGeneration.GenerationWord + TimedWord + OutWord + AfterWord + FiveWord + MinutesWord + IncWord
  const OverrunTail: string := UdingWord + RetriesWord
  const OverrunMessage: string := OverrunHead + "l" + OverrunTail

  lemma OverrunHeadStartAvoids()
    ensures AvoidsImageWords(ImageWord + ImageGeneration.GenerationWord + TimedWord + OutWord)
  {
    assert AvoidsImageWords(ImageWord);
    assert AvoidsImageWords(ImageGeneration.GenerationWord);
    assert AvoidsImageWords(TimedWord);
    assert AvoidsImageWords(OutWord);
  }

  lemma OverrunHeadAvoids()
    ensures AvoidsImageWords(OverrunHead)
  {
    OverrunHeadStartAvoids();
    assert AvoidsImageWords(AfterWord);
    assert AvoidsImageWords(FiveWord);
    assert AvoidsImageWords(MinutesWord);
    assert AvoidsImageWords(IncWord);
  }

  lemma OverrunTailAvoids()
    ensures AvoidsImageWords(OverrunTail)
  {
    assert AvoidsImageWords(UdingWord);
    assert AvoidsImageWords(RetriesWord);
  }

  lemma RateLimitNotAroundL(x: string, y: string)
    requires 'l' !in x && 'l' !in y && x != [] && x[|x| - 1] == 'c'
    ensures !Contains(x + ['l'] + y, "rate limit")
  {
    LoneCharNotContained(x, 'l', y, "rate limit", 5);
  }

  lemma ThrottledNotAroundL(x: string, y: string)
    requires 'l' !in x && 'l' !in y && x != [] && x[|x| - 1] == 'c'
    ensures !Contains(x + ['l'] + y, "throttled")
  {
    LoneCharNotContained(x, 'l', y, "throttled", 6);
  }

  lemma LowerAroundL(x: string, y: string)
    ensures Lower(x + "l" + y) == Lower(x) + ['l'] + Lower(y)
  {
    LowerAppend(x + "l", y);
    LowerAppend(x, "l");
    assert Lower("l") == "l";
  }

  /** A lone `l` after a `c` starts neither `rate limit` nor `throttled`. */
  lemma LoneLAfterC(x: string, y: string)
    requires 'l' !in x && 'L' !in x && 'l' !in y && 'L' !in y
    requires x != [] && x[|x| - 1] == 'c'
    ensures !Contains(Lower(x + "l" + y), "rate limit") && !Contains(Lower(x + "l" + y), "throttled")
  {
    LowerAroundL(x, y);
    LowerLacksLetter(x, 'l');
    LowerLacksLetter(y, 'l');
    assert Lower(x)[|x| - 1] == 'c';
    RateLimitNotAroundL(Lower(x), Lower(y));
    ThrottledNotAroundL(Lower(x), Lower(y));
  }

  lemma OverrunHeadEndsInC()
    ensures OverrunHead != [] && OverrunHead[|OverrunHead| - 1] == 'c'
  {
    assert IncWord[3] == 'c';
  }

  /** Its only `l` follows a `c`, so neither `rate limit` nor `throttled` can occur. */
  lemma OverrunNoLimitWords()
    ensures !Contains(Lower(OverrunMessage), "rate limit") && !Contains(Lower(OverrunMessage), "throttled")
  {
    OverrunHeadAvoids();
    OverrunTailAvoids();
    OverrunHeadEndsInC();
    LoneLAfterC(OverrunHead, OverrunTail);
  }

  /** The 300-second time-out is an ordinary per-scene failure, not a stop. */
  lemma OverrunIsNotRateLimit()
    ensures !IsImageRateLimit(OverrunMessage)
  {
    var m := OverrunMessage;
    OverrunHeadAvoids();
    OverrunTailAvoids();
    assert '4' !in m && 'q' !in m && 'Q' !in m;
    MissingCharNotContained(m, "429", 0);
    LowerLacksLetter(m, 'q');
    MissingCharNotContained(Lower(m), "quota", 0);
    OverrunNoLimitWords();
  }


  // ---------------------------------------------------------------------------
  // generate_scenes glue

  /** `min(story_input.max_scenes, 8)` */
  function ClampMaxScenes(requested: int): (n: int)
    ensures n <= MaxScenes && (n == requested || n == MaxScenes)
    ensures requested <= MaxScenes ==> n == requested
  {
    Min(requested, MaxScenes)
  }

  /** For an accepted story input the clamped count lies in 3..8, and is 8 when none was requested. */
  lemma ClampInRange(prompt: string, style: Option<string>, maxScenes: Option<int>)
    requires Models.CheckStoryInput(prompt, style, maxScenes).Valid?
    ensures var n := ClampMaxScenes(Models.CheckStoryInput(prompt, style, maxScenes).value.maxScenes);
      3 <= n <= 8 && (maxScenes.None? ==> n == 8)
  {
  }

  /** The title used if title generation raises: the six-word title, capped at 50 characters. */
  function FallbackTitle(prompt: string): (title: string)
    ensures |title| <= 50
  {
    Analytics.CapTitle(Analytics.SixWordTitle(prompt))
  }

  /** A short prompt's fallback title is its words; a long one is cut and marked. */
  lemma FallbackTitleShape(prompt: string)
    ensures |Words(prompt)| <= 6 && |Analytics.SixWordTitle(prompt)| <= 50 ==> Words(FallbackTitle(prompt)) == Words(prompt)
    ensures |Analytics.SixWordTitle(prompt)| > 50 ==> EndsWith(FallbackTitle(prompt), "...") && |FallbackTitle(prompt)| == 50
  {
    if |Words(prompt)| <= 6 {
      Analytics.ShortPromptTitle(prompt);
    }
  }

  /**
   * The title stored as written: title generation handles its own failure
   * with the uncapped six-word title, so the endpoint's capped fallback is
   * never reached.
   */
  function StoredTitleAsWritten(prompt: string, answer: Analytics.Answer): (title: string)
    ensures answer.Answered? ==> title == Analytics.TitleOf(answer.text) && |title| <= 50
    ensures answer.Failed? ==> title == Analytics.SixWordTitle(prompt)
  {
    Analytics.GenerateTitle(prompt, answer)
  }

  /** As written, a failed title request for a prompt made of one 51-letter word stores a 51-character title. */
  lemma UncappedTitleStored()
    ensures var prompt := seq(51, (i: int) => 'a');
      StoredTitleAsWritten(prompt, Analytics.Failed("")) == prompt && |prompt| > 50
  {
    var w := seq(51, (i: int) => 'a');
    assert IsWord(w);
    WordsOfWord(w);
    assert PyTake(Words(w), 6) == [w];
  }

  /** The title stored as intended: the answer's title, or the capped fallback when the request fails. */
  function StoredTitle(prompt: string, answer: Analytics.Answer): (title: string)
    ensures |title| <= 50
    ensures answer.Answered? ==> title == Analytics.TitleOf(answer.text)
    ensures answer.Failed? ==> title == FallbackTitle(prompt)
    ensures answer.Failed? && |Analytics.SixWordTitle(prompt)| <= 50 ==> title == Analytics.SixWordTitle(prompt)
  {
    match answer
    case Answered(_) => Analytics.GenerateTitle(prompt, answer)
    case Failed(_) => FallbackTitle(prompt)
  }

  /** The scenes the endpoint goes on with: the decomposition, or one scene made from the prompt on a quota error. */
  function ScenesOrFallback(prompt: string, decomposition: Result<seq<Json>>): (r: Result<seq<Json>>)
    ensures decomposition.Success? ==> r == decomposition
    ensures decomposition.Failure? && IsSceneQuotaError(decomposition.error) ==> r == Success([FallbackScene(prompt)])
    ensures decomposition.Failure? && !IsSceneQuotaError(decomposition.error) ==> r == decomposition
  {
    match decomposition
    case Success(scenes) => Success(scenes)
    case Failure(e) => if IsSceneQuotaError(e) then Success([FallbackScene(prompt)]) else Failure(e)
  }

  /** A decomposition that timed out falls back to one scene, because its message mentions the quota. */
  lemma TimeoutFallsBack(maxScenes: int, prompt: string, parse: Parser)
    ensures ScenesOrFallback(prompt, Decomposition(maxScenes, prompt, TimedOut, parse)) == Success([FallbackScene(prompt)])
  {
    TimeoutMentionsQuota();
  }

  /** A quota error from the model falls back to one scene; any other error propagates unchanged. */
  lemma RaisedErrorHandling(maxScenes: int, prompt: string, m: string, parse: Parser)
    ensures IsQuotaError(m) ==>
      ScenesOrFallback(prompt, Decomposition(maxScenes, prompt, Raised(m), parse)) == Success([FallbackScene(prompt)])
    ensures !IsQuotaError(m) ==>
      ScenesOrFallback(prompt, Decomposition(maxScenes, prompt, Raised(m), parse)) == Failure(m)
  {
    if IsQuotaError(m) {
      QuotaPrefixMentionsQuota(m);
    }
  }

  /** No digit 4, `q` or `m` in either case and no `x`: then none of the scene-side words can occur. */
  predicate AvoidsSceneWords(m: string) {
    '4' !in m && 'q' !in m && 'Q' !in m && 'm' !in m && 'M' !in m && 'x' !in m
  }

  lemma NotSceneQuota(m: string)
    requires AvoidsSceneWords(m)
    ensures !IsSceneQuotaError(m) && !IsQuotaError(m)
  {
    MissingCharNotContained(m, "429", 0);
    LowerLacksLetter(m, 'q');
    LowerLacksLetter(m, 'm');
    MissingCharNotContained(Lower(m), "quota", 0);
    MissingCharNotContained(Lower(m), "rate limit", 7);
    MissingCharNotContained(m, "ResourceExhausted", 9);
  }

  lemma NoResultAvoids()
    ensures AvoidsSceneWords(NoResultMessage)
  {
    assert AvoidsSceneWords(SceneGeneration.SceneWord);
    assert AvoidsSceneWords(SceneGeneration.GenerationWord);
    assert AvoidsSceneWords(FailedWord);
    assert AvoidsSceneWords(DashNoWord);
    assert AvoidsSceneWords(ResultWord);
    assert AvoidsSceneWords(SceneGeneration.ReturnedWord);
  }

  /** A worker that ends with neither result nor exception is an error, not a quota fallback. */
  lemma VanishedPropagates(maxScenes: int, prompt: string, parse: Parser)
    ensures ScenesOrFallback(prompt, Decomposition(maxScenes, prompt, Vanished, parse)) == Failure(NoResultMessage)
  {
    NoResultAvoids();
    NotSceneQuota(NoResultMessage);
  }

  /** A decomposition that fails on malformed model output is not a quota error and propagates. */
  lemma MalformedOutputPropagates(maxScenes: int, prompt: string, text: string, parse: Parser)
    requires |text| >= 2 && text[0] == '[' && text[|text| - 1] == ']' && parse(text).Failure?
    requires !IsQuotaError(parse(text).error)
    ensures ScenesOrFallback(prompt, Decomposition(maxScenes, prompt, Returned(text), parse)) == Failure(parse(text).error)
  {
    MalformedOutputCanFail(maxScenes, prompt, text, parse);
  }

  // ---------------------------------------------------------------------------
  // generate_images

  /** A stored scene row. */
  datatype StoredScene = StoredScene(id: int, sceneNumber: int, sceneText: string, cinematicPrompt: string)

  /**
   * A stored story row, reduced to its style column. The row is read with
   * every column, so the key is always there and `story.get("style", ...)`
   * returns the column; a NULL style is not modelled.
   */
  datatype StoryRow = StoryRow(style: string)

  /** How one scene's future ended: in time, or after the 300-second limit, when the call still runs to its end. */
  datatype SceneRun = InTime(call: ImageCallOutcome) | Overran(call: ImageCallOutcome)

  const StoryNotFound: string := "Story not " + "found"
  const NoScenesFound: string := "No scenes " + "found"
  const ImageUrlPrefix: string := "/scene_images/"

  /** The dictionary handed to the generator for a stored scene. */
  function SceneDictOf(s: StoredScene): SceneDict {
    SceneDict(Some(s.sceneNumber), Some(s.sceneText), Some(s.cinematicPrompt))
  }

  /** `f"/scene_images/{os.path.basename(path)}"` */
  function ImageUrl(path: string): string {
    ImageUrlPrefix + Basename(path)
  }

  /** The URL of a scene's image is the prefix and its file name. */
  lemma UrlOfScenePath(storyId: int, scene: StoredScene)
    ensures ImageUrl(ScenePath(OutputDir, Some(storyId), SceneDictOf(scene)))
            == ImageUrlPrefix + FileName(Some(storyId), scene.sceneNumber)
  {
    var name := FileName(Some(storyId), scene.sceneNumber);
    FileNameHasNoSeparator(Some(storyId), scene.sceneNumber);
    assert name[..6] == "scene_";
    BasenameOfJoin(OutputDir, name);
  }

  /** The loop's variables after some scenes (`attempted` of them), and the generator's previous image. */
  datatype Progress = Progress(paths: seq<string>, urls: seq<string>, failed: seq<int>,
                               rateLimited: bool, attempted: nat, previous: Option<Image>)

  const Start: Progress := Progress([], [], [], false, 0, None)

  /** What a scene's future yields, or raises: the generator's answer, or the overrun message. */
  function RunResult(attempt: Attempt, run: SceneRun): Result<string> {
    if run.Overran? then Failure(OverrunMessage) else attempt.result
  }

  /** A scene's future, and the generator's state once the call has run to its end. */
  function FutureOf(storyId: int, style: string, previous: Option<Image>, scene: StoredScene, run: SceneRun, decode: Decoder): Attempt {
    var a := SceneAttempt(OutputDir, Some(storyId), style, previous, SceneDictOf(scene), run.call, decode);
    Attempt(RunResult(a, run), a.previous)
  }

  /** The futures of the stored scenes, by previous image and position. */
  function SceneFutures(storyId: int, style: string, scenes: seq<StoredScene>, runs: seq<SceneRun>, decode: Decoder)
    : (Option<Image>, int) -> Attempt
    requires |runs| == |scenes|
  {
    (previous: Option<Image>, j: int) =>
      if 0 <= j < |scenes| then FutureOf(storyId, style, previous, scenes[j], runs[j], decode) else Attempt(Failure(""), previous)
  }

  /** `future` gives each scene's future. */
  ghost predicate Futures(future: (Option<Image>, int) -> Attempt, storyId: int, style: string,
                    scenes: seq<StoredScene>, runs: seq<SceneRun>, decode: Decoder)
    requires |runs| == |scenes|
  {
    forall previous: Option<Image>, j: int {:trigger FutureOf(storyId, style, previous, scenes[j], runs[j], decode)} ::
      0 <= j < |scenes| ==> future(previous, j) == FutureOf(storyId, style, previous, scenes[j], runs[j], decode)
  }

  lemma SceneFuturesAreFutures(storyId: int, style: string, scenes: seq<StoredScene>, runs: seq<SceneRun>, decode: Decoder)
    requires |runs| == |scenes|
    ensures Futures(SceneFutures(storyId, style, scenes, runs, decode), storyId, style, scenes, runs, decode)
  {
  }

  /** The loop's bookkeeping once a scene's future has yielded `r` and the generator holds `previous`. */
  function Advance(p: Progress, sceneNumber: int, r: Result<string>, previous: Option<Image>): Progress {
    if r.Success? then
      p.(paths := p.paths + [r.value], urls := p.urls + [ImageUrl(r.value)], attempted := p.attempted + 1, previous := previous)
    else if IsImageRateLimit(r.error) then
      p.(rateLimited := true, attempted := p.attempted + 1, previous := previous)
    else
      p.(failed := p.failed + [sceneNumber], attempted := p.attempted + 1, previous := previous)
  }

  /** One pass of the loop body. */
  function Step(p: Progress, scenes: seq<StoredScene>, future: (Option<Image>, int) -> Attempt): Progress
    requires p.attempted < |scenes|
  {
    var a := future(p.previous, p.attempted);
    Advance(p, scenes[p.attempted].sceneNumber, a.result, a.previous)
  }

  /** The loop from `p` on: stop after a rate limit, or when every scene has been attempted. */
  function RunFrom(p: Progress, scenes: seq<StoredScene>, future: (Option<Image>, int) -> Attempt): Progress
    requires p.attempted <= |scenes|
    decreases |scenes| - p.attempted
  {
    if p.rateLimited || p.attempted == |scenes| then p
    else RunFrom(Step(p, scenes, future), scenes, future)
  }

  /** The response of `generate_images`. */
  datatype ImagesResponse =
    | NotFound(detail: string)
    | RateLimited(paths: seq<string>, urls: seq<string>, completed: nat, total: nat)
    | SomeFailed(paths: seq<string>, urls: seq<string>, failedScenes: seq<int>)
    | AllGenerated(paths: seq<string>, urls: seq<string>)

  /** The summary built after the loop. */
  function Summary(p: Progress, total: nat): ImagesResponse {
    if p.rateLimited then RateLimited(p.paths, p.urls, |p.paths|, total)
    else if p.failed != [] then SomeFailed(p.paths, p.urls, p.failed)
    else AllGenerated(p.paths, p.urls)
  }

  /** The loop's final state for a story whose row has the given style. */
  function ImageRun(storyId: int, style: string, scenes: seq<StoredScene>, runs: seq<SceneRun>, decode: Decoder): Progress
    requires |runs| == |scenes|
  {
    RunFrom(Start, scenes, SceneFutures(storyId, style, scenes, runs, decode))
  }

  /** What `generate_images` answers, given the story, its scenes and how each scene's future ends. */
  function ImagesResult(storyId: int, story: Option<StoryRow>, scenes: seq<StoredScene>, runs: seq<SceneRun>, decode: Decoder): ImagesResponse
    requires |runs| == |scenes|
  {
    if story.None? then NotFound(StoryNotFound)
    else if scenes == [] then NotFound(NoScenesFound)
    else Summary(ImageRun(storyId, story.value.style, scenes, runs, decode), |scenes|)
  }

  /**
   * Scene `j`'s future: the generator runs to its end either way, but a
   * future still running after 300 seconds raises the overrun message instead.
   */
  method RunScene(imageGen: ImageGenerator, storyId: int, scenes: seq<StoredScene>, runs: seq<SceneRun>, j: int,
                  decode: Decoder, ghost future: (Option<Image>, int) -> Attempt)
    returns (path: Result<string>)
    requires |runs| == |scenes| && 0 <= j < |scenes|
    requires imageGen.outputDir == OutputDir && imageGen.storyId == Some(storyId)
    requires Futures(future, storyId, imageGen.style, scenes, runs, decode)
    modifies imageGen
    ensures Attempt(path, imageGen.previousImage) == future(old(imageGen.previousImage), j)
  {
    ghost var expected := FutureOf(storyId, imageGen.style, imageGen.previousImage, scenes[j], runs[j], decode);
    assert future(imageGen.previousImage, j) == expected;
    var sceneDict := SceneDictOf(scenes[j]);
    var result, _ := imageGen.GenerateImageForScene(sceneDict, runs[j].call, decode);
    if runs[j].Overran? {
      return Failure(OverrunMessage);
    }
    return result;
  }

  /**
   * The scene loop of `generate_images` over a fresh generator: the scenes in
   * stored order, stopping at the first rate-limit error.
   * `runs[i]` is how the future of scene `i` ends, if it is reached.
   */
  method ImageLoop(imageGen: ImageGenerator, storyId: int, storyStyle: string, scenes: seq<StoredScene>,
                   runs: seq<SceneRun>, decode: Decoder, ghost future: (Option<Image>, int) -> Attempt)
    returns (imagePaths: seq<string>, imageUrls: seq<string>, failedScenes: seq<int>, rateLimitHit: bool)
    requires |runs| == |scenes|
    requires imageGen.outputDir == OutputDir && imageGen.storyId == Some(storyId) && imageGen.style == storyStyle
    requires imageGen.previousImage == None
    requires Futures(future, storyId, storyStyle, scenes, runs, decode)
    modifies imageGen
    ensures var final := RunFrom(Start, scenes, future);
            imagePaths == final.paths && imageUrls == final.urls && failedScenes == final.failed
            && rateLimitHit == final.rateLimited
  {
    imagePaths := [];
    imageUrls := [];
    failedScenes := [];
    rateLimitHit := false;
    ghost var final := RunFrom(Start, scenes, future);
    var i := 0;
    while i < |scenes|
      invariant 0 <= i <= |scenes|
      invariant !rateLimitHit
      invariant RunFrom(Progress(imagePaths, imageUrls, failedScenes, false, i, imageGen.previousImage), scenes, future) == final
    {
      ghost var before := Progress(imagePaths, imageUrls, failedScenes, false, i, imageGen.previousImage);
      var path := RunScene(imageGen, storyId, scenes, runs, i, decode, future);
      ghost var after := Advance(before, scenes[i].sceneNumber, path, imageGen.previousImage);
      assert after == Step(before, scenes, future);
      if path.Success? {
        imagePaths := imagePaths + [path.value];
        imageUrls := imageUrls + [ImageUrl(path.value)];
      } else if IsImageRateLimit(path.error) {
        rateLimitHit := true;
        assert final == after;
        break;
      } else {
        failedScenes := failedScenes + [scenes[i].sceneNumber];
      }
      assert after == Progress(imagePaths, imageUrls, failedScenes, false, i + 1, imageGen.previousImage);
      i := i + 1;
    }
  }

  /** `generate_images`: look the story and its scenes up, run the loop on a fresh generator, summarise. */
  method GenerateImages(storyId: int, story: Option<StoryRow>, scenes: seq<StoredScene>, runs: seq<SceneRun>, decode: Decoder)
    returns (response: ImagesResponse)
    requires |runs| == |scenes|
    ensures response == ImagesResult(storyId, story, scenes, runs, decode)
  {
    if story.None? {
      return NotFound(StoryNotFound);
    }
    if |scenes| == 0 {
      return NotFound(NoScenesFound);
    }
    var storyStyle := story.value.style;
    var imageGen := new ImageGenerator(storyId := Some(storyId), style := storyStyle);
    ghost var future := SceneFutures(storyId, storyStyle, scenes, runs, decode);
    SceneFuturesAreFutures(storyId, storyStyle, scenes, runs, decode);
    var imagePaths, imageUrls, failedScenes, rateLimitHit := ImageLoop(imageGen, storyId, storyStyle, scenes, runs, decode, future);
    if rateLimitHit {
      return RateLimited(imagePaths, imageUrls, |imagePaths|, |scenes|);
    }
    if failedScenes != [] {
      return SomeFailed(imagePaths, imageUrls, failedScenes);
    }
    return AllGenerated(imagePaths, imageUrls);
  }

  // ---------------------------------------------------------------------------
  // What the loop guarantees

  /** Paths and URLs pair up, and every attempted scene is a path, a failure or the one that stopped the loop. */
  predicate Consistent(p: Progress) {
    && |p.paths| == |p.urls|
    && (forall k :: 0 <= k < |p.paths| ==> p.urls[k] == ImageUrl(p.paths[k]))
    && |p.paths| + |p.failed| + (if p.rateLimited then 1 else 0) == p.attempted
  }

  lemma StepKeepsConsistent(p: Progress, scenes: seq<StoredScene>, future: (Option<Image>, int) -> Attempt)
    requires p.attempted < |scenes| && !p.rateLimited && Consistent(p)
    ensures Consistent(Step(p, scenes, future)) && Step(p, scenes, future).attempted == p.attempted + 1
  {
    var q := Step(p, scenes, future);
    if q.paths != p.paths {
      assert forall k :: 0 <= k < |p.paths| ==> q.urls[k] == p.urls[k] && q.paths[k] == p.paths[k];
    }
  }

  /** The loop ends consistent, and either after a rate-limit stop or with every scene attempted. */
  lemma {:induction false} RunFromKeepsConsistent(p: Progress, scenes: seq<StoredScene>, future: (Option<Image>, int) -> Attempt)
    requires p.attempted <= |scenes| && Consistent(p)
    ensures var q := RunFrom(p, scenes, future);
      && Consistent(q) && p.attempted <= q.attempted <= |scenes|
      && (!q.rateLimited ==> q.attempted == |scenes|)
      && (q.rateLimited ==> 0 < q.attempted)
      && |p.paths| <= |q.paths|
    decreases |scenes| - p.attempted
  {
    if !(p.rateLimited || p.attempted == |scenes|) {
      StepKeepsConsistent(p, scenes, future);
      RunFromKeepsConsistent(Step(p, scenes, future), scenes, future);
    }
  }

  /**
   * Without a stop, every scene is an image or a failure, and the answer is
   * partial exactly when some scene failed; with a stop at scene k
   * (1-based) the earlier k - 1 scenes are images or failures.
   */
  lemma ImageRunAccounting(storyId: int, style: string, scenes: seq<StoredScene>, runs: seq<SceneRun>, decode: Decoder)
    requires |runs| == |scenes|
    ensures var q := ImageRun(storyId, style, scenes, runs, decode);
      && Consistent(q)
      && (!q.rateLimited ==> |q.paths| + |q.failed| == |scenes|)
      && (!q.rateLimited ==> (q.failed == [] <==> |q.paths| == |scenes|))
      && (q.rateLimited ==> 0 < q.attempted <= |scenes| && |q.paths| + |q.failed| == q.attempted - 1)
  {
    RunFromKeepsConsistent(Start, scenes, SceneFutures(storyId, style, scenes, runs, decode));
  }

  /** The response's lists match up with the scenes as the summary promises. */
  lemma ImagesResponseShape(storyId: int, story: Option<StoryRow>, scenes: seq<StoredScene>, runs: seq<SceneRun>, decode: Decoder)
    requires |runs| == |scenes|
    ensures var r := ImagesResult(storyId, story, scenes, runs, decode);
      && (r.NotFound? <==> story.None? || scenes == [])
      && (!r.NotFound? ==> |r.paths| == |r.urls| && forall k :: 0 <= k < |r.paths| ==> r.urls[k] == ImageUrl(r.paths[k]))
      && (r.RateLimited? ==> r.completed == |r.paths| < |scenes| == r.total)
      && (r.SomeFailed? ==> r.failedScenes != [] && |r.paths| + |r.failedScenes| == |scenes|)
      && (r.AllGenerated? ==> |r.paths| == |scenes|)
  {
    if story.Some? && scenes != [] {
      ImageRunAccounting(storyId, story.value.style, scenes, runs, decode);
    }
  }

  /** The loop's result depends only on the futures of the scenes it reached. */
  lemma {:induction false} AgreeingFutures(p: Progress, scenes: seq<StoredScene>, f: (Option<Image>, int) -> Attempt,
                                           g: (Option<Image>, int) -> Attempt)
    requires p.attempted <= |scenes| && Consistent(p)
    requires forall previous, j :: p.attempted <= j < RunFrom(p, scenes, f).attempted ==> f(previous, j) == g(previous, j)
    ensures RunFrom(p, scenes, g) == RunFrom(p, scenes, f)
    decreases |scenes| - p.attempted
  {
    if !(p.rateLimited || p.attempted == |scenes|) {
      var q := Step(p, scenes, f);
      StepKeepsConsistent(p, scenes, f);
      RunFromKeepsConsistent(q, scenes, f);
      assert f(p.previous, p.attempted) == g(p.previous, p.attempted);
      assert Step(p, scenes, g) == q;
      AgreeingFutures(q, scenes, f, g);
    }
  }

  /** Scenes after a rate-limit stop are not attempted: how their futures would end changes nothing. */
  lemma LaterScenesNotAttempted(storyId: int, style: string, scenes: seq<StoredScene>, runs: seq<SceneRun>,
                                other: seq<SceneRun>, decode: Decoder)
    requires |runs| == |scenes| == |other|
    requires forall j :: 0 <= j < |scenes| && j < ImageRun(storyId, style, scenes, runs, decode).attempted ==> other[j] == runs[j]
    ensures ImageRun(storyId, style, scenes, other, decode) == ImageRun(storyId, style, scenes, runs, decode)
  {
    var f := SceneFutures(storyId, style, scenes, runs, decode);
    var g := SceneFutures(storyId, style, scenes, other, decode);
    RunFromKeepsConsistent(Start, scenes, f);
    forall previous, j | 0 <= j < RunFrom(Start, scenes, f).attempted
      ensures f(previous, j) == g(previous, j)
    {
      assert other[j] == runs[j];
    }
    AgreeingFutures(Start, scenes, f, g);
  }

  /** A rate-limit error at the first scene answers at once with nothing generated. */
  lemma FirstSceneRateLimited(storyId: int, story: Option<StoryRow>, scenes: seq<StoredScene>, runs: seq<SceneRun>, decode: Decoder)
    requires |runs| == |scenes| && story.Some? && scenes != []
    requires var a := FutureOf(storyId, story.value.style, None, scenes[0], runs[0], decode);
             a.result.Failure? && IsImageRateLimit(a.result.error)
    ensures ImagesResult(storyId, story, scenes, runs, decode) == RateLimited([], [], 0, |scenes|)
  {
    var f := SceneFutures(storyId, story.value.style, scenes, runs, decode);
    assert f(None, 0) == FutureOf(storyId, story.value.style, None, scenes[0], runs[0], decode);
    var q := Step(Start, scenes, f);
    assert q.rateLimited && q.paths == [] && q.urls == [];
    assert RunFrom(Start, scenes, f) == RunFrom(q, scenes, f) == q;
  }

  /** A scene whose future overran is recorded as failed and the loop goes on, whatever the call did. */
  lemma OverranSceneFails(p: Progress, storyId: int, style: string, scenes: seq<StoredScene>, runs: seq<SceneRun>, decode: Decoder)
    requires |runs| == |scenes| && p.attempted < |scenes| && !p.rateLimited && runs[p.attempted].Overran?
    ensures var q := Step(p, scenes, SceneFutures(storyId, style, scenes, runs, decode));
      q.paths == p.paths && q.failed == p.failed + [scenes[p.attempted].sceneNumber] && !q.rateLimited
  {
    OverrunIsNotRateLimit();
  }

  /** A scene whose image call timed out in time is recorded as failed and the loop goes on. */
  lemma TimedOutSceneFails(p: Progress, storyId: int, style: string, scenes: seq<StoredScene>, runs: seq<SceneRun>, decode: Decoder)
    requires |runs| == |scenes| && p.attempted < |scenes| && !p.rateLimited
    requires runs[p.attempted] == InTime(CallTimedOut)
    ensures var q := Step(p, scenes, SceneFutures(storyId, style, scenes, runs, decode));
      q.paths == p.paths && q.failed == p.failed + [scenes[p.attempted].sceneNumber] && !q.rateLimited
  {
    GeneratorErrorsAreNotRateLimits();
    var a := SceneAttempt(OutputDir, Some(storyId), style, p.previous, SceneDictOf(scenes[p.attempted]), CallTimedOut, decode);
    assert a.result == Failure(EmptyPromptMessage) || a.result == Failure(ImageTimeoutMessage);
  }

  // ---------------------------------------------------------------------------
  // History search and filter

  /** A stored story row as the history endpoints see it; `None` is a missing key. */
  datatype StoryRecord = StoryRecord(title: string, userPrompt: Option<string>, genre: Option<string>, style: Option<string>)

  /** The rows `keep` accepts, in their original order. */
  function Keep(rows: seq<StoryRecord>, keep: StoryRecord -> bool): (r: seq<StoryRecord>)
    ensures |r| <= |rows|
  {
    if rows == [] then [] else (if keep(rows[0]) then [rows[0]] else []) + Keep(rows[1..], keep)
  }

  /** Exactly the accepted rows, each as often as it occurs. */
  lemma {:induction false} KeepCounts(rows: seq<StoryRecord>, keep: StoryRecord -> bool, x: StoryRecord)
    ensures multiset(Keep(rows, keep))[x] == if keep(x) then multiset(rows)[x] else 0
  {
    if rows != [] {
      KeepCounts(rows[1..], keep, x);
      assert rows == [rows[0]] + rows[1..];
    }
  }

  /** Keeping preserves order: it distributes over concatenation. */
  lemma {:induction false} KeepAppend(xs: seq<StoryRecord>, ys: seq<StoryRecord>, keep: StoryRecord -> bool)
    ensures Keep(xs + ys, keep) == Keep(xs, keep) + Keep(ys, keep)
  {
    if xs != [] {
      assert (xs + ys)[0] == xs[0];
      assert (xs + ys)[1..] == xs[1..] + ys;
      KeepAppend(xs[1..], ys, keep);
    } else {
      assert xs + ys == ys;
    }
  }

  /** Two filters in a row keep what both accept. */
  lemma {:induction false} KeepKeep(rows: seq<StoryRecord>, f: StoryRecord -> bool, g: StoryRecord -> bool)
    ensures Keep(Keep(rows, f), g) == Keep(rows, (x: StoryRecord) => f(x) && g(x))
  {
    if rows != [] {
      var head := if f(rows[0]) then [rows[0]] else [];
      KeepAppend(head, Keep(rows[1..], f), g);
      KeepKeep(rows[1..], f, g);
    }
  }

  /** The search test: the query in the title or the prompt, ignoring ASCII case. */
  predicate MatchesQuery(row: StoryRecord, query: string) {
    Contains(Lower(row.title), Lower(query)) || Contains(Lower(row.userPrompt.GetOr("")), Lower(query))
  }

  function Search(rows: seq<StoryRecord>, query: string): seq<StoryRecord> {
    Keep(rows, (row: StoryRecord) => MatchesQuery(row, query))
  }

  /** Search returns, in order and with their multiplicity, exactly the matching rows. */
  lemma SearchFinds(rows: seq<StoryRecord>, query: string, x: StoryRecord)
    ensures multiset(Search(rows, query))[x] == if MatchesQuery(x, query) then multiset(rows)[x] else 0
    ensures x in Search(rows, query) <==> x in rows && MatchesQuery(x, query)
  {
    KeepCounts(rows, (row: StoryRecord) => MatchesQuery(row, query), x);
  }

  /** A filter value counts only when it is given and not empty. */
  predicate Given(value: Option<string>) {
    value.Some? && value.value != ""
  }

  /** The filter test: equal to every given genre and style. */
  predicate MatchesFilter(row: StoryRecord, genre: Option<string>, style: Option<string>) {
    (Given(genre) ==> row.genre == genre) && (Given(style) ==> row.style == style)
  }

  /** The filter endpoint: first by genre, then by style, each only when given. */
  function Filter(rows: seq<StoryRecord>, genre: Option<string>, style: Option<string>): seq<StoryRecord> {
    var byGenre := if Given(genre) then Keep(rows, (row: StoryRecord) => row.genre == genre) else rows;
    if Given(style) then Keep(byGenre, (row: StoryRecord) => row.style == style) else byGenre
  }

  /** The two passes are one order-preserving filter by the combined test. */
  lemma FilterIsOneKeep(rows: seq<StoryRecord>, genre: Option<string>, style: Option<string>)
    ensures Filter(rows, genre, style) == Keep(rows, (row: StoryRecord) => MatchesFilter(row, genre, style))
  {
    var both := (row: StoryRecord) => MatchesFilter(row, genre, style);
    var byGenre := (row: StoryRecord) => row.genre == genre;
    var byStyle := (row: StoryRecord) => row.style == style;
    if Given(genre) && Given(style) {
      KeepKeep(rows, byGenre, byStyle);
      KeepSame(rows, (x: StoryRecord) => byGenre(x) && byStyle(x), both);
    } else if Given(genre) {
      KeepSame(rows, byGenre, both);
    } else if Given(style) {
      KeepSame(rows, byStyle, both);
    } else {
      KeepAll(rows, both);
    }
  }

  lemma {:induction false} KeepSame(rows: seq<StoryRecord>, f: StoryRecord -> bool, g: StoryRecord -> bool)
    requires forall x :: f(x) == g(x)
    ensures Keep(rows, f) == Keep(rows, g)
  {
    if rows != [] {
      KeepSame(rows[1..], f, g);
    }
  }

  lemma {:induction false} KeepAll(rows: seq<StoryRecord>, f: StoryRecord -> bool)
    requires forall x :: f(x)
    ensures Keep(rows, f) == rows
  {
    if rows != [] {
      KeepAll(rows[1..], f);
      assert rows == [rows[0]] + rows[1..];
    }
  }

  /** Filter returns, in order and with their multiplicity, exactly the rows matching every given value. */
  lemma FilterFinds(rows: seq<StoryRecord>, genre: Option<string>, style: Option<string>, x: StoryRecord)
    ensures multiset(Filter(rows, genre, style))[x] == if MatchesFilter(x, genre, style) then multiset(rows)[x] else 0
    ensures x in Filter(rows, genre, style) <==> x in rows && MatchesFilter(x, genre, style)
  {
    FilterIsOneKeep(rows, genre, style);
    KeepCounts(rows, (row: StoryRecord) => MatchesFilter(row, genre, style), x);
  }
}
