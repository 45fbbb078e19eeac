# agent-stories: the story-to-images pipeline, modelled in Dafny

agent-stories is a FastAPI service. It turns a story prompt into numbered scenes with cinematic prompts, using a language model. It then turns each scene into an image, using an image model, keeping visual continuity from one image to the next. This project models the deterministic part of that pipeline and proves properties of it.

Every remote call is an abstract outcome value:
- the text-generation call is an `LlmOutcome`: timed out, raised, returned a text, or ended with nothing;
- the image call is an `ImageCallOutcome`: timed out, raised, or returned response parts;
- the 300-second future around it is a `SceneRun`;
- `json.loads` is a `Parser`;
- image decoding is a `Decoder`.

The modules follow the source files:

| module | file | models |
|---|---|---|
| `Wrappers`, `Strings`, `JsonValues` | — | `Option`/`Result`, the Python `str` and slice operations the code uses, an abstract JSON value |
| `SceneGeneration` | `src/scene_generator.py` | `clean_json_response`, and what `SceneGenerator.generate_scenes` does with the call's outcome: error classification, the parse fallbacks, wrapping, truncation |
| `ImageGeneration` | `src/image_generator.py` | the style table, prompt selection, the `contents` list, the file name, and `ImageGenerator` with its `previous_image` state |
| `Analytics` | `src/analytics.py` | the response cleaners and fallbacks of `summarize`, `classify`, `detect_patterns` and `generate_title` |
| `Api` | `src/api.py` | the four rate-limit vocabularies, the `generate_scenes` glue (clamp, fallback title, quota fallback), the `generate_images` loop and its summary, search and filter |
| `Memory` | `src/memory.py` | `AgentMemory`: history, context window, preferences, saved preferences, story context |
| `Models` | `src/models.py` | the field bounds and validators of the request models |

The code has state in three places, and each is a class:
- `SceneGeneration.SceneGenerator.GenerateScenes` is a method. It follows the source's step-by-step reassignment of `scenes`, and it is proved equal to the function `Decomposition`.
- `ImageGeneration.ImageGenerator` keeps `previousImage` as a mutable field. `GenerateImageForScene` is proved to leave it as the function `SceneAttempt` says.
- `Api.GenerateImages` runs the scene loop as a `while` loop over a real `ImageGenerator`. It appends to the three lists and `break`s on a rate-limit error. It is proved equal to the function `ImagesResult`, which is defined by the recursive `RunFrom`. The lemmas about the loop (`ImageRunAccounting`, `ImagesResponseShape`, ...) are stated on `RunFrom`.
- `Memory.AgentMemory` keeps `conversationHistory` as a `seq` field that `AddMessage` extends.

## Model

| member | source | states |
|---|---|---|
| SceneGeneration.CleanJsonResponse | src/scene_generator.py:20-27 | the cleaned response never has leading or trailing whitespace |
| SceneGeneration.CleanOfStripped | src/scene_generator.py:20-27 | a text that is already stripped and has no opening fence comes back unchanged |
| SceneGeneration.CleanUnfenced | src/scene_generator.py:22-27 | when the stripped response does not start with a fence, the result is the stripped response |
| SceneGeneration.CleanFenced | src/scene_generator.py:24-27 | a fenced response loses the opening fence, then the closing fence, and is stripped |
| SceneGeneration.DropOpeningTagged | src/scene_generator.py:25 | an opening fence tagged `json` goes with its tag and the whitespace after it |
| SceneGeneration.DropOpeningBare | src/scene_generator.py:25 | an untagged opening fence goes with the whitespace after it |
| SceneGeneration.DropClosingOf | src/scene_generator.py:26 | a closing fence at the end goes with the whitespace before it |
| SceneGeneration.FenceTail | src/scene_generator.py:25-26 | once both fence rewrites have run, the body is left stripped |
| SceneGeneration.BlankFenceTail | src/scene_generator.py:25-26 | a fenced body of whitespace only leaves nothing |
| SceneGeneration.CleanTaggedFence | src/scene_generator.py:20-27 | a ```` ```json body``` ```` response cleans to the stripped body |
| SceneGeneration.CleanBareFence | src/scene_generator.py:20-27 | an untagged fenced response cleans to the stripped body |
| SceneGeneration.BracketSpanIsGreedy | src/scene_generator.py:100-101 | a span exists iff some `[` comes before some `]`; the span runs from the first `[` to the last `]` |
| SceneGeneration.FallbackScene | src/scene_generator.py:105-109 | the single fallback scene: number 1, the story cut to 200 characters and `...`, and `Cinematic scene: ` with its first 150 characters; its fields are stated by `FallbackSceneText` and `FallbackScenePrompt` |
| SceneGeneration.FallbackSceneText | src/scene_generator.py:107 | a story of at most 200 characters is kept whole; a longer one becomes its first 200 characters and `...`, 203 in all |
| SceneGeneration.FallbackScenePrompt | src/scene_generator.py:108 | the prompt is `Cinematic scene: ` followed by the first 150 characters of the story |
| SceneGeneration.AsList | src/scene_generator.py:112-113 | a list is kept as it is; any other value becomes a one-element list |
| SceneGeneration.Truncate | src/scene_generator.py:115-116 | the first `max_scenes` scenes when there are more; its contents are stated by `TruncateKeepsPrefix` and `TruncateBound` |
| SceneGeneration.TruncateKeepsPrefix | src/scene_generator.py:115-116 | truncation keeps the first `min(len, max_scenes)` scenes, in order |
| SceneGeneration.TruncateBound | src/scene_generator.py:115-116 | a longer list is cut to `max_scenes`, a shorter one is kept, and the result never exceeds the bound |
| SceneGeneration.SceneGenerator.constructor | src/scene_generator.py:30-39 | the generator keeps the scene bound it is given, 8 by default |
| SceneGeneration.SceneGenerator.GenerateScenes | src/scene_generator.py:54-118 | the method's step-by-step result equals `Decomposition`, and a success never holds more than `max_scenes` scenes |
| SceneGeneration.IsQuotaError | src/scene_generator.py:83 | the generator's quota test: `429`, `quota` or `rate limit` ignoring case, or `ResourceExhausted`; used by `RaisedErrorClassified` |
| SceneGeneration.ParseScenes | src/scene_generator.py:96-109 | the parse chain: the cleaned text, else the greedy bracket span (whose decode error escapes), else the fallback scene; stated by `DecodeOfParsed`, `DecodeOfFailed` and `MalformedWithoutSpanFallsBack` |
| SceneGeneration.DecodeScenes | src/scene_generator.py:94-118 | clean, parse, wrap a non-list, truncate; stated by `ParsedListIsPrefix`, `ParsedValueIsWrapped` and `MalformedSpanRaises` |
| SceneGeneration.Decomposition | src/scene_generator.py:54-118 | what `generate_scenes` does with the call's outcome: the timeout message, the classified raised error, the no-result error, or the decoded scenes; `GenerateScenes` is proved equal to it |
| SceneGeneration.DecodeOfParsed | src/scene_generator.py:96-118 | once the parse chain yields a value, the scenes are that value as a list, truncated |
| SceneGeneration.MalformedWithoutSpanFallsBack | src/scene_generator.py:98-109 | with no parse and no bracket span, the result is exactly the one fallback scene |
| SceneGeneration.DecodeOfFailed | src/scene_generator.py:96-102 | a failure of the parse chain is the failure of the whole decomposition |
| SceneGeneration.MalformedSpanRaises | src/scene_generator.py:100-102 | a bracket span that does not parse makes the decomposition fail with that decode error |
| SceneGeneration.SpanErrorEscapes | src/scene_generator.py:100-102 | the second `json.loads` is unguarded, so its error is the chain's result |
| SceneGeneration.BracketedIsClean | src/scene_generator.py:20-27 | a text running from `[` to `]` is left alone by the cleaner |
| SceneGeneration.BracketedIsOwnSpan | src/scene_generator.py:100-101 | a text running from `[` to `]` is its own bracket span |
| SceneGeneration.MalformedOutputCanFail | src/scene_generator.py:94-102 | a malformed `[...]` response makes `generate_scenes` raise rather than fall back |
| SceneGeneration.ParsedListIsPrefix | src/scene_generator.py:97-118 | a parsed list comes back as its prefix of length `min(len, max_scenes)` |
| SceneGeneration.ListChainPrefix | src/scene_generator.py:96-116 | the parse chain passes a parsed list through, and truncation keeps its prefix |
| SceneGeneration.ParsedValueIsWrapped | src/scene_generator.py:112-113 | a parsed value that is not a list becomes the only scene |
| SceneGeneration.TimeoutMentionsQuota | src/scene_generator.py:76 | the timeout message contains `quota` once lower-cased |
| SceneGeneration.QuotaPrefixMentionsQuota | src/scene_generator.py:84 | every re-raised quota error contains `quota` once lower-cased |
| SceneGeneration.RaisedErrorClassified | src/scene_generator.py:79-85 | a quota error is re-raised with the `API quota exceeded: ` prefix and any other error unchanged; the re-raised message is a quota error iff the original is |
| ImageGeneration.StylePrompt | src/image_generator.py:39-47 | the style prompt always starts with `Style: ` |
| ImageGeneration.StyleDescription | src/image_generator.py:39-47 | the table's description for the lower-cased style, else the style itself; stated by `StyleIsCaseInsensitive` and `UnknownStylePassesThrough` |
| ImageGeneration.StyleIsCaseInsensitive | src/image_generator.py:40-47 | two spellings of a known style that differ only in case give the same prompt |
| ImageGeneration.UnknownStylePassesThrough | src/image_generator.py:47 | an unknown style is passed through unchanged after `Style: ` |
| ImageGeneration.ScenePrompt | src/image_generator.py:50 | a non-empty cinematic prompt is used; otherwise the scene text, or `""` when there is none |
| ImageGeneration.Contents | src/image_generator.py:54-73 | with no previous image, `contents` is the single prompt text; with one, it is the image part, the continuity instruction, then the prompt text |
| ImageGeneration.PromptTextShape | src/image_generator.py:73 | the prompt text starts with `Style: ` and ends with a newline followed by the prompt |
| ImageGeneration.ContentsEndsWithPrompt | src/image_generator.py:54-73 | the last entry is always the prompt text, and there are three entries exactly when a previous image exists |
| ImageGeneration.Pad2 | src/image_generator.py:77-79 | `{n:02d}` is always at least two characters |
| ImageGeneration.Pad2Width | src/image_generator.py:77-79 | numbers 0..99 take exactly two characters |
| ImageGeneration.Pad2Injective | src/image_generator.py:77-79 | distinct numbers have distinct padded forms |
| ImageGeneration.Pad2Sign | src/image_generator.py:77-79 | the padded form starts with `-` iff the number is negative, and with `0` iff it is 0..9 |
| ImageGeneration.FileName | src/image_generator.py:75-80 | `scene_<story>_<nn>.png` when the story id is truthy, `scene_<nn>.png` otherwise; stated by `FileNameInjective` and `FileNameHasNoSeparator` |
| ImageGeneration.FileNameInjective | src/image_generator.py:75-80 | for one story, distinct scene numbers give distinct file names |
| ImageGeneration.FileNameHasNoSeparator | src/image_generator.py:75-80 | a file name never contains `/` |
| ImageGeneration.PathJoin | src/image_generator.py:81 | `os.path.join` on POSIX: an absolute name replaces the directory; otherwise the directory, a `/` unless it is empty or already ends in one, then the name; stated by `BasenameOfJoin` |
| ImageGeneration.Basename | src/api.py:314 | `os.path.basename`: what follows the last `/`; stated by `BasenameOfJoin` |
| ImageGeneration.BasenameOfJoin | src/image_generator.py:81 | the basename of the joined path is the file name |
| ImageGeneration.FirstInlineData | src/image_generator.py:119-123 | the data used is that of the first part with inline data; none is found only if no part has any |
| ImageGeneration.FirstInlinePartWins | src/image_generator.py:119-123 | when part `i` is the first with inline data, its data is used |
| ImageGeneration.ImageResult | src/image_generator.py:109-126 | the timeout error, the worker's error, `No image returned`, or the decoded first inline image; stated by `FailedCallKeepsState` |
| ImageGeneration.StateChangesOnlyOnSuccess | src/image_generator.py:49-129 | the previous image changes only when a path is returned, and then to the image just produced; a path is returned iff the prompt is not blank and an image was found and decoded |
| ImageGeneration.SceneAttempt | src/image_generator.py:49-129 | one scene: the blank-prompt error, else the call on `Contents` of the previous image, giving the path and the new previous image; stated by `StateChangesOnlyOnSuccess`, `BlankPromptIsRefused` and `FailedCallKeepsState` |
| ImageGeneration.BlankPromptIsRefused | src/image_generator.py:51-52 | a blank prompt raises `Empty scene prompt` before any request is made, and the state is kept |
| ImageGeneration.FailedCallKeepsState | src/image_generator.py:109-126 | a timeout, a worker error, or a response without an image raises its own message and keeps the previous image |
| ImageGeneration.ImageGenerator.constructor | src/image_generator.py:25-37 | a fresh generator has the given directory, story and style, aspect ratio `3:4`, and no previous image |
| ImageGeneration.ImageGenerator.GenerateImageForScene | src/image_generator.py:49-83 | the path returned and the new previous image are those of `SceneAttempt`; a request is built only for a non-blank prompt, and it is `Contents` of the old previous image |
| ImageGeneration.ImageGenerator.GenerateImage | src/image_generator.py:85-132 | on failure the error is raised and the state is kept; on success the file path is returned and the image becomes the previous image |
| Analytics.SummaryFallback | src/analytics.py:84 | a text of at most 100 characters is returned as it is; a longer one becomes `Summary: `, its first 100 characters and `...` |
| Analytics.Summarize | src/analytics.py:76-84 | an answer comes back as exactly its stripped text; a failure gives the fallback summary |
| Analytics.CleanLlmJson | src/analytics.py:92-97 | the cleaned response has no leading or trailing whitespace |
| Analytics.CleanLlmJsonUnfenced | src/analytics.py:92-97 | without an opening fence the response is only stripped |
| Analytics.NextFence | src/analytics.py:94 | the second fence is the first one after the opening fence |
| Analytics.FirstBlock | src/analytics.py:94 | `split("```")[1]` is the text between the first two fences |
| Analytics.DropTagOf | src/analytics.py:95-96 | a leading `json` tag is dropped, and an untagged body is kept |
| Analytics.CleanLlmJsonFenced | src/analytics.py:92-97 | a fenced response cleans to the stripped body of its first block |
| Analytics.Classify | src/analytics.py:86-106 | the parsed cleaned answer, or the fallback classification when the call or the parse fails; stated by `ClassifyOutcomes` |
| Analytics.ClassifyOutcomes | src/analytics.py:86-106 | a failed call or an unparseable answer gives the fallback classification; a parseable one gives the parsed value |
| Analytics.FallbackClassificationFields | src/analytics.py:102-106 | the fallback is genre `Drama`, style `Cinematic`, scene type `Setting` |
| Analytics.SceneLine | src/analytics.py:112 | every pattern line starts with `Scene ` |
| Analytics.PatternLine | src/analytics.py:112 | `Scene <scene_number or index+1>: <scene_text or "">` for one scene; stated by `SceneLine` |
| Analytics.PatternLines | src/analytics.py:111-114 | one line per scene, in order, each built from that scene and its 1-based index; a scene that is not an object makes the comprehension fail |
| Analytics.PatternLinesShape | src/analytics.py:111-114 | every line starts with `Scene ` |
| Analytics.ScenesText | src/analytics.py:111-114 | the pattern lines joined by newlines; stated by `ScenesTextRoundTrip` |
| Analytics.ScenesTextRoundTrip | src/analytics.py:111-114 | splitting the joined text on newlines gives the lines back when none holds a newline |
| Analytics.DetectPatterns | src/analytics.py:108-134 | a failure while building the lines, or a failed call, gives the default patterns |
| Analytics.CapTitle | src/analytics.py:149-150 | a title is at most 50 characters; a longer one becomes its first 47 and `...` |
| Analytics.TitleOf | src/analytics.py:142-151 | the title from an answer is stripped and at most 50 characters |
| Analytics.Unquote | src/analytics.py:144-147 | one pair of matching surrounding quotes removed; stated by `QuotedTitle` |
| Analytics.QuotedTitle | src/analytics.py:144-147 | one pair of matching double or single quotes is removed |
| Analytics.PlainTitle | src/analytics.py:142-151 | a short unquoted answer is only stripped |
| Analytics.LongTitle | src/analytics.py:149-151 | an over-long title ends in `...` |
| Analytics.StripKeepsDots | src/analytics.py:151 | the final strip keeps the trailing `...` |
| Analytics.SixWordTitle | src/analytics.py:155-156 | the first six words joined by spaces, then `...` when there are more; stated by `ShortPromptTitle` and `LongPromptTitle` |
| Analytics.ShortPromptTitle | src/analytics.py:155-156 | a prompt of at most six words gives a title with the same words |
| Analytics.LongPromptTitle | src/analytics.py:155-156 | a longer prompt gives its first six words joined by spaces, then `...` |
| Analytics.GenerateTitle | src/analytics.py:136-156 | an answer gives exactly its cleaned title, at most 50 characters; a failure gives the six-word fallback, which is not capped |
| Api.SceneVocabulariesAgree | src/api.py:183 | the quota test of `generate_scenes` in the endpoint accepts exactly the messages the generator's own test accepts |
| Api.IsSceneQuotaError | src/api.py:183 | the endpoint's quota test for scene generation; stated by `SceneVocabulariesAgree` |
| Api.IsImageRateLimit | src/api.py:331 | the loop's rate-limit test: `429`, or `rate limit`, `throttled` or `quota` ignoring case; stated by `OuterImpliesImage` and `QuotaOnlyInLoop` |
| Api.IsOuterRateLimit | src/api.py:370 | the outer handler's test: `429`, or `rate limit` or `throttled` ignoring case; stated by `OuterImpliesImage` |
| Api.OuterImpliesImage | src/api.py:331 | every message the outer handler's test accepts also stops the loop |
| Api.QuotaOnlyInLoop | src/api.py:370 | `quota` stops the loop, but the outer handler does not treat it as a rate limit |
| Api.ThrottledStopsImages | src/api.py:331 | `throttled` stops the image loop |
| Api.ThrottledNotQuota | src/api.py:183 | `throttled` is no quota error for scene generation |
| Api.ThrottledOnlyForImages | src/api.py:331 | `throttled` counts for images only |
| Api.ExhaustedIsQuota | src/api.py:183 | `ResourceExhausted` triggers the scene fallback |
| Api.ExhaustedNotImageRateLimit | src/api.py:331 | `ResourceExhausted` does not stop the image loop |
| Api.ExhaustedOnlyForScenes | src/api.py:183 | `ResourceExhausted` counts for scenes only |
| Api.GeneratorErrorsAreNotRateLimits | src/api.py:331 | the generator's empty-prompt, timeout and no-image messages never stop the loop |
| Api.OverrunIsNotRateLimit | src/api.py:305-307 | the 300-second overrun message does not stop the loop |
| Api.ClampMaxScenes | src/api.py:134 | the count is at most 8, equal to the request when that is at most 8 |
| Api.ClampInRange | src/api.py:134 | for an accepted story input the clamped count lies in 3..8, and is 8 when none was requested |
| Api.FallbackTitle | src/api.py:159-162 | the fallback title is at most 50 characters |
| Api.FallbackTitleShape | src/api.py:159-162 | a short prompt keeps its words; an over-long title is cut to 50 characters ending in `...` |
| Api.StoredTitleAsWritten | src/api.py:154-162 | as written, the stored title is whatever title generation returns, because it handles its own failure; on failure that is the uncapped six-word title |
| Api.UncappedTitleStored | src/analytics.py:152-156 | as written, a failed title request for a prompt of one 51-letter word stores a 51-character title |
| Api.StoredTitle | src/api.py:154-162 | corrected: the answered title, or the capped fallback on failure, so a stored title is never longer than 50 characters |
| Api.ScenesOrFallback | src/api.py:178-192 | scenes pass through; a quota error gives exactly one fallback scene from the prompt; any other error propagates |
| Api.TimeoutFallsBack | src/api.py:181-190 | because the timeout message mentions quota, a scene-generation timeout falls back to one scene |
| Api.RaisedErrorHandling | src/api.py:181-192 | a raised quota error falls back to one scene; any other raised error propagates unchanged |
| Api.VanishedPropagates | src/api.py:191-192 | the "no result" error propagates |
| Api.MalformedOutputPropagates | src/api.py:191-192 | a malformed `[...]` response's decode error propagates unless it mentions a quota word |
| Api.UrlOfScenePath | src/api.py:313-315 | a scene's image URL is `/scene_images/` followed by its file name |
| Api.ImageUrl | src/api.py:313-315 | `/scene_images/` and the basename of the path; stated by `UrlOfScenePath` |
| Api.SceneFuturesAreFutures | src/api.py:300-309 | the futures name each stored scene's attempt in turn |
| Api.Step | src/api.py:289-336 | one pass: append the path and URL, or stop on a rate limit, or record the scene as failed; stated by `StepKeepsConsistent` |
| Api.RunFrom | src/api.py:288-336 | the loop over the remaining scenes until all are done or a rate limit stops it; stated by `RunFromKeepsConsistent`, `ImageRunAccounting` and `AgreeingFutures` |
| Api.Summary | src/api.py:338-365 | rate-limited with completed and total, else partial with the failed scenes, else all generated; stated by `ImagesResponseShape` |
| Api.ImagesResult | src/api.py:270-365 | not found for a missing story or no scenes, else the summary of the loop; `GenerateImages` is proved equal to it |
| Api.RunScene | src/api.py:290-309 | one scene's future yields the path, or raises, as `FutureOf` says, and leaves the generator's previous image accordingly |
| Api.ImageLoop | src/api.py:288-336 | the loop's final paths, URLs, failed scenes and rate-limit flag are those of `RunFrom` |
| Api.GenerateImages | src/api.py:270-365 | the response equals `ImagesResult` of the stored story, its scenes and each scene's outcome |
| Api.StepKeepsConsistent | src/api.py:311-336 | one pass keeps paths and URLs of equal length, each URL that of its path, and counts one more scene |
| Api.RunFromKeepsConsistent | src/api.py:288-336 | the loop ends after all scenes or after a rate limit, never earlier, with paths and URLs still paired |
| Api.ImageRunAccounting | src/api.py:288-365 | without a stop, paths plus failures are all the scenes, and there are no failures iff every scene has a path; with a stop at scene k, they number k−1 |
| Api.ImagesResponseShape | src/api.py:270-365 | not found iff no story or no scenes; URLs pair with paths; the rate-limited summary reports completed = paths < total = scenes; a partial summary lists failed scenes |
| Api.AgreeingFutures | src/api.py:288-336 | scenes after a stop are never attempted: futures that agree up to the stop give the same run |
| Api.LaterScenesNotAttempted | src/api.py:332-333 | changing the outcome of any scene after the stop changes nothing |
| Api.FirstSceneRateLimited | src/api.py:330-348 | a rate limit on the first scene answers rate-limited with nothing completed |
| Api.OverranSceneFails | src/api.py:305-307 | an overrun scene is recorded as failed and the loop goes on |
| Api.TimedOutSceneFails | src/api.py:334-336 | a generator timeout is recorded as failed and the loop goes on |
| Api.Keep | src/api.py:643 | a comprehension keeps at most the rows it is given |
| Api.KeepCounts | src/api.py:643 | a comprehension keeps exactly the accepted rows, each as often as it occurs |
| Api.KeepAppend | src/api.py:643 | a comprehension distributes over concatenation, so order is kept |
| Api.KeepKeep | src/api.py:656-659 | two comprehensions in a row keep what both accept |
| Api.Search | src/api.py:643 | the rows whose lower-cased title or prompt contains the lower-cased query; stated by `SearchFinds` |
| Api.MatchesFilter | src/api.py:656-659 | a row matches when it equals each given genre and style; stated by `FilterFinds` |
| Api.Filter | src/api.py:654-659 | the genre pass, then the style pass, each only when given; stated by `FilterIsOneKeep` and `FilterFinds` |
| Api.SearchFinds | src/api.py:643 | search returns exactly the stories whose title or prompt contains the query, ignoring case |
| Api.FilterIsOneKeep | src/api.py:654-659 | the two filter passes keep exactly the rows equal to every given genre and style |
| Api.FilterFinds | src/api.py:654-659 | a story is in the filter result iff it matches, with its multiplicity |
| Memory.RecentWindow | src/memory.py:24 | a positive limit keeps the last `limit` messages; a limit of 0 keeps all of them; a negative one drops the first `-limit` |
| Memory.Recent | src/memory.py:24 | the last `limit` messages when the history is longer, else all of it; stated by `RecentWindow` and `NewestIsRecent` |
| Memory.NewestIsRecent | src/memory.py:16-24 | the newest message is always the last one in the window |
| Memory.MessageLines | src/memory.py:25 | one `role: message` line per message, in history order |
| Memory.ContextRoundTrip | src/memory.py:25-26 | for a non-empty window, splitting the context on newlines gives the lines back when no message holds a newline |
| Memory.GivenValues | src/memory.py:39-40 | only non-empty values are kept |
| Memory.GivenValuesCount | src/memory.py:39-40 | each non-empty value is kept as often as it occurs |
| Memory.Best | src/memory.py:43 | the choice is a candidate at least as frequent as every candidate |
| Memory.MostFrequent | src/memory.py:43-45 | the result occurs in the list and no value occurs more often |
| Memory.Styles | src/memory.py:39 | one style per story, in order |
| Memory.Genres | src/memory.py:40 | one genre per story, in order |
| Memory.Preferred | src/memory.py:38-45 | absent when no non-empty value is given, else the most frequent one; stated by `PreferredIsMode` |
| Memory.UserPreferences | src/memory.py:28-47 | the preferences built from the five newest stories; stated by `UserPreferencesShape` |
| Memory.PreferredIsMode | src/memory.py:38-45 | a preference is absent iff no story gives a value; otherwise it is a most frequent non-empty value |
| Memory.UserPreferencesShape | src/memory.py:31-45 | at most the five newest stories are read, the scene count is always 8, and each preference is their mode |
| Memory.SceneLines | src/memory.py:61 | one `Scene n: text` line per scene, in order |
| Memory.SceneContextRoundTrip | src/memory.py:61-62 | for at least one scene, splitting the story context on newlines gives the lines back when no scene text holds a newline |
| Memory.PreferenceKeyInjective | src/memory.py:52 | distinct keys are stored under distinct `user_pref_` keys |
| Memory.PreferenceKey | src/memory.py:52 | `user_pref_` and the key; stated by `PreferenceKeyInjective` |
| Memory.AgentMemory.constructor | src/memory.py:11-14 | a fresh memory has the given user and story and an empty history |
| Memory.AgentMemory.AddMessage | src/memory.py:16-20 | the history grows by exactly the new entry at its end, and the record written carries the story, user, role and message |
| Memory.AgentMemory.ConversationContext | src/memory.py:22-26 | the context is the `role: message` lines of the recent window joined by newlines, for every history and limit; when no message holds a newline it splits back into those lines |
| Memory.AgentMemory.SavePreference | src/memory.py:49-52 | nothing is written iff the story id is not truthy; otherwise the value is written under `user_pref_` and the key |
| Memory.AgentMemory.StoryContext | src/memory.py:54-63 | none iff the story id is not truthy or there are no scenes; otherwise it is the `Scene n: text` lines joined by newlines, which split back into those lines when no scene text holds a newline |
| Models.CheckUsernameAsWritten | src/models.py:13-17 | the validator as written: rejects only a name that is neither alphanumeric nor holds `_`, and returns it stripped |
| Models.CheckUsername | src/models.py:13-17 | corrected: accepts iff every character is a letter, digit or `_`, and returns the name unchanged |
| Models.RegisterAsWritten | src/models.py:8-17 | as written: accepted iff the name has 3..50 characters and passes the written test, and the password has 6..100; the name is stored stripped |
| Models.Register | src/models.py:8-17 | corrected: accepted iff the name has 3..50 letters, digits or `_`, and the password has 6..100; all are stored as given |
| Models.RegisterIsStable | src/models.py:8-17 | a stored registration is accepted again unchanged, and its name keeps the bounds |
| Models.UnderscoreAdmitsAnything | src/models.py:15 | `a b_!` passes the written validator but not the corrected one |
| Models.StripAfterLengthCheck | src/models.py:9-17 | ` a_` is accepted and stored as `a_`, a name the length bound rejects |
| Models.CheckStoryInput | src/models.py:34-43 | accepted iff the prompt has 10..5000 characters and at least 10 once stripped, the style is absent or one of the five names, and the scene count (8 by default) is in 3..15; the prompt is stored stripped |
| Models.StoryInputIsStable | src/models.py:34-43 | an accepted story input is accepted again unchanged |
| Models.CheckSceneOutput | src/models.py:55-68 | accepted iff the scene number is at least 1, the text has at least 10 characters and the prompt at least 20; the validator's own message is never the reason for a rejection |
| Models.CheckSearchQuery | src/models.py:87-88 | accepted iff the query has 1..200 characters |
| Models.CheckCategorizeRequest | src/models.py:98-99 | accepted iff the text has at least 10 characters |

## Left out

- The language model, the image model and their clients are outside the model; their answers are parameters. So are `PromptTemplate` formatting, `json.loads` (a `Parser`) and PIL decoding (a `Decoder`).
- Threads, queues, joins and the thread pool become outcome values: `LlmOutcome`, `ImageCallOutcome`, `SceneRun`.
  - When a scene's future overruns 300 seconds, the `with` block still waits for the worker, so the generator's previous image may change. The model follows this: an overrun still runs the call to its end.
- Regular expressions are modelled only as the two fence rewrites and the greedy bracket span that the code uses.
- File writes, `os.makedirs`, image saving and `print` are not modelled.
  - `os.path.join` and `os.path.basename` are modelled for the paths the code builds.
  - `save_scenes` is not part of this model.
- Database access is not modelled, for these pieces:
  - reads arrive as parameters, newest first for past stories and in scene order for scenes;
  - `add_conversation` and `set_metadata` become returned records;
  - the per-scene `UPDATE` (api.py:318-324) and `log_user_query` are not modelled, nor are database errors.
- The rest of `generate_scenes` is not modelled: classification, preferences, story creation, pattern logging and scene storage. `src/database.py`, the FastAPI routing, authentication and the HTTP status mapping are not part of this model either.
- The outer handler of `generate_images` (api.py:367-375) is modelled only as its vocabulary, `IsOuterRateLimit`. No modelled step raises there.
- The message texts of the three summaries (api.py:341, 353, 361) are not modelled; the summaries carry their data fields.
- Float scores are not modelled: `SceneOutput`'s confidence and completeness bounds, and `visual_consistency_score`.
- `EmailStr` validation is not modelled; the email is carried unchecked.
- `str.isalnum`, `str.lower` and `str.split` are modelled for ASCII letters and digits and for Python's whitespace set. Unicode letters and case mappings are left out.
- Memory.MostFrequent: Python's `max(set(xs), key=xs.count)` breaks ties by set iteration order, which is unspecified. The model picks one deterministically, and the contracts state only that the result is a most frequent value.
- Api.SearchFinds: a stored `NULL` title or prompt would make the Python comprehension raise; the model treats a missing prompt as `""` and does not model `NULL` titles.
- A `NULL` style column is not modelled: `StoryRow` carries the style as a string. Such a row arises when the classification answers `"style": null` and no style was given (api.py:148, 168). `get_story` reads every column, so `story.get("style", "Cinematic")` (api.py:280) gives `None`, and `self.style.lower()` (image_generator.py:47) then raises for every scene with a non-blank prompt. Every scene would therefore be recorded as failed.
- Analytics.DetectPatterns: the contract states only the fallback cases; the parsed answer is returned as the parser gives it.

## Findings

| source | as written | input that shows it | evidently intended | confidence | as-written member | corrected member |
|---|---|---|---|---|---|---|
| src/models.py:15 | a name is refused only when it is not alphanumeric and holds no `_`, so one `_` admits any other character | username `a b_!` | the message says only letters, numbers and underscores are allowed | high (not executed) | Models.UnderscoreAdmitsAnything | Models.CheckUsername |
| src/models.py:9-17 | the length bound is checked on the raw value, and the validator then returns it stripped | username ` a_`, stored as `a_` | a stored username has 3..50 characters | medium (not executed) | Models.StripAfterLengthCheck | Models.Register |
| src/api.py:154-162 | title generation catches its own errors (src/analytics.py:152-156) and returns the six-word title uncapped, so the endpoint's capped fallback never runs | a prompt that is one 51-letter word, with the title request failing | a stored title has at most 50 characters, as the endpoint's fallback caps it | medium (not executed) | Api.UncappedTitleStored | Api.StoredTitle |
