/**
 * `ImageGenerator`: the request it builds for one scene, the file name it
 * derives, and the one piece of state it keeps between scenes, the last image
 * it produced. The image service call, the worker thread and its 120-second
 * join are replaced by an `ImageCallOutcome`; Pillow's decoding by a `Decoder`.
 */
module ImageGeneration {
  import opened Wrappers
  import opened Strings

  type Byte = bv8

  /** A decoded (RGB) picture; its pixels are not interpreted here. */
  datatype Image = Image(pixels: seq<Byte>)

  /** `Image.open(BytesIO(data)).convert("RGB")`, which may raise. */
  type Decoder = seq<Byte> -> Result<Image>

  /** One entry of the `contents` list sent to the image service. */
  datatype Part =
    | InlineImage(source: Image, mimeType: string)   // `types.Part.from_bytes(...)` of the JPEG re-encoding of `source`
    | Text(text: string)

  /** One entry of `response.parts`; `inline_data` is truthy exactly when present. */
  datatype ResponsePart = ResponsePart(inlineData: Option<seq<Byte>>)

  /** How the worker running `generate_content` ended, as seen after the join. */
  datatype ImageCallOutcome =
    | CallTimedOut                      // still alive after the join
    | CallRaised(message: string)       // the call raised; `str(e)`
    | CallReturned(parts: seq<ResponsePart>)

  /** The scene dictionary handed in; `None` is a missing key. */
  datatype SceneDict = SceneDict(sceneNumber: Option<int>, sceneText: Option<string>, cinematicPrompt: Option<string>)

  const OutputDir: string := "scene_images"
  const ImageExt: string := "png"
  const DefaultStyle: string := "Cinematic"
  const AspectRatio: string := "3:4"
  const JpegMime: string := "image/jpeg"

  // The error messages are assembled from named words, so that which letters
  // a message holds can be checked word by word.
  const EmptyWord: string := "Empty "
  const SceneWord: string := "scene "
  const PromptWord: string := "prompt"
  const ImageWord: string := "Image "
  const GenerationWord: string := "generation "
  const TimeoutWord: string := "timeout"
  const NoWord: string := "No "
  const LowerImageWord: string := "image "
  const ReturnedWord: string := "returned"

  const EmptyPromptMessage: string := EmptyWord + SceneWord + PromptWord
  const ImageTimeoutMessage: string := ImageWord + GenerationWord + TimeoutWord
  const NoImageMessage: string := NoWord + LowerImageWord + ReturnedWord

  const ContinuityInstruction: string :=
    "Maintain strict visual continuity with the provided image. "
    + "Characters, faces, clothing, lighting, and environment must remain consistent."

  // ---------------------------------------------------------------------------
  // _get_style_prompt

  /** The five known styles, keyed by their lower-case names. */
  const StyleTable: map<string, string> := map[
    "cinematic" := "Cinematic film photography, dramatic lighting, professional cinematography.",
    "anime" := "Anime art style, vibrant colors, Japanese animation aesthetic.",
    "watercolor" := "Watercolor painting, soft brush strokes.",
    "noir" := "Film noir, high contrast black and white, dramatic shadows.",
    "cyberpunk" := "Cyberpunk aesthetic, neon lights, futuristic city."
  ]

  /** `styles.get(style.lower(), style)` */
  function StyleDescription(style: string): string {
    if Lower(style) in StyleTable then StyleTable[Lower(style)] else style
  }

  /** `_get_style_prompt`: `"Style: "` and the description. */
  function StylePrompt(style: string): (r: string)
    ensures StartsWith(r, "Style: ")
  {
    var r := "Style: " + StyleDescription(style);
    assert r[..7] == "Style: ";
    r
  }

  /** Lower-casing twice is lower-casing once. */
  lemma LowerIdempotent(s: string)
    ensures Lower(Lower(s)) == Lower(s)
  {
    assert forall i :: 0 <= i < |s| ==> Lower(Lower(s))[i] == Lower(s)[i];
  }

  /** The known styles are matched without regard to case. */
  lemma StyleIsCaseInsensitive(a: string, b: string)
    requires Lower(a) == Lower(b) && Lower(a) in StyleTable
    ensures StylePrompt(a) == StylePrompt(b)
    ensures StylePrompt(a) == StylePrompt(Lower(a))
  {
    LowerIdempotent(a);
  }

  /** Any other style is passed through unchanged, in its original case. */
  lemma UnknownStylePassesThrough(style: string)
    requires Lower(style) !in StyleTable
    ensures StylePrompt(style) == "Style: " + style
    ensures Lower(style) != "cinematic" && Lower(style) != "noir"
  {
  }

  // ---------------------------------------------------------------------------
  // Prompt selection and the request contents

  /** `scene.get("cinematic_prompt") or scene.get("scene_text", "")` */
  function ScenePrompt(scene: SceneDict): (prompt: string)
    ensures scene.cinematicPrompt.Some? && scene.cinematicPrompt.value != "" ==> prompt == scene.cinematicPrompt.value
    ensures scene.cinematicPrompt.None? || scene.cinematicPrompt.value == "" ==> prompt == scene.sceneText.GetOr("")
  {
    if scene.cinematicPrompt.Some? && scene.cinematicPrompt.value != "" then scene.cinematicPrompt.value
    else scene.sceneText.GetOr("")
  }

  /** `not prompt.strip()` */
  predicate IsBlank(prompt: string) {
    Strip(prompt) == ""
  }

  /** The final text entry of `contents`. */
  function PromptText(style: string, prompt: string): string {
    StylePrompt(style) + "\n" + prompt
  }

  /** The `contents` list: the previous image and the continuity instruction when there is one, then the prompt. */
  function Contents(previous: Option<Image>, style: string, prompt: string): (contents: seq<Part>)
    ensures previous.None? ==> contents == [Text(PromptText(style, prompt))]
    ensures previous.Some? ==>
      contents == [InlineImage(previous.value, JpegMime), Text(ContinuityInstruction), Text(PromptText(style, prompt))]
  {
    (if previous.Some? then [InlineImage(previous.value, JpegMime), Text(ContinuityInstruction)] else [])
    + [Text(PromptText(style, prompt))]
  }

  /** The prompt text opens with the style line and closes with the scene prompt. */
  lemma PromptTextShape(style: string, prompt: string)
    ensures StartsWith(PromptText(style, prompt), "Style: ")
    ensures EndsWith(PromptText(style, prompt), "\n" + prompt)
  {
    AroundNewline(StylePrompt(style), prompt);
  }

  lemma AroundNewline(head: string, prompt: string)
    requires StartsWith(head, "Style: ")
    ensures StartsWith(head + "\n" + prompt, "Style: ")
    ensures EndsWith(head + "\n" + prompt, "\n" + prompt)
  {
    var t := head + "\n" + prompt;
    assert t == head + ("\n" + prompt);
    assert t[|t| - |"\n" + prompt|..] == "\n" + prompt;
    assert t[..7] == head[..7];
  }

  /** The prompt is always the last entry; the previous image, when sent, comes first. */
  lemma ContentsEndsWithPrompt(previous: Option<Image>, style: string, prompt: string)
    ensures var c := Contents(previous, style, prompt);
      |c| >= 1 && c[|c| - 1].Text? && StartsWith(c[|c| - 1].text, "Style: ")
      && EndsWith(c[|c| - 1].text, "\n" + prompt)
      && (previous.Some? <==> |c| == 3)
      && (previous.Some? ==> c[0] == InlineImage(previous.value, JpegMime))
  {
    PromptTextShape(style, prompt);
  }

  // ---------------------------------------------------------------------------
  // The file name

  /** `f"{n:02d}"`: at least two digits, zero-padded; a negative number keeps its sign. */
  function Pad2(n: int): (s: string)
    ensures |s| >= 2
  {
    if n < 0 then "-" + NatToString(-n)
    else if n < 10 then "0" + NatToString(n)
    else NatToString(n)
  }

  /** Scene numbers 0..99 take exactly two characters. */
  lemma Pad2Width(n: int)
    requires 0 <= n < 100
    ensures |Pad2(n)| == 2
  {
    if n >= 10 {
      assert NatToString(n) == NatToString(n / 10) + [DigitChar(n % 10)];
    }
  }

  /** Different numbers are padded differently. */
  lemma Pad2Injective(a: int, b: int)
    requires Pad2(a) == Pad2(b)
    ensures a == b
  {
    Pad2Sign(a);
    Pad2Sign(b);
    if a < 0 {
      assert NatToString(-a) == Pad2(a)[1..];
      assert NatToString(-b) == Pad2(b)[1..];
      NatToStringInjective(-a, -b);
    } else if a < 10 {
      assert NatToString(a) == Pad2(a)[1..];
      assert NatToString(b) == Pad2(b)[1..];
      NatToStringInjective(a, b);
    } else {
      NatToStringInjective(a, b);
    }
  }

  /** The first character tells the three cases apart. */
  lemma Pad2Sign(n: int)
    ensures Pad2(n)[0] == '-' <==> n < 0
    ensures n >= 0 ==> (Pad2(n)[0] == '0' <==> n < 10)
  {
    if n >= 10 {
      assert '0' <= NatToString(n)[0] <= '9';
    } else if n >= 0 {
      assert Pad2(n)[0] == '0';
    }
  }

  /** `self.story_id` is truthy: present and not zero. */
  predicate IsTruthy(storyId: Option<int>) {
    storyId.Some? && storyId.value != 0
  }

  /** `f"scene_{story_id}_{n:02d}.png"` when the story id is truthy, else `f"scene_{n:02d}.png"`. */
  function FileName(storyId: Option<int>, sceneNumber: int): string {
    if IsTruthy(storyId) then "scene_" + IntToString(storyId.value) + "_" + Pad2(sceneNumber) + "." + ImageExt
    else "scene_" + Pad2(sceneNumber) + "." + ImageExt
  }

  /** Cancelling a common prefix and suffix. */
  lemma CancelAround(p: string, x: string, y: string, q: string)
    requires p + x + q == p + y + q
    ensures x == y
  {
    var l := p + x + q;
    var r := p + y + q;
    assert |x| == |y|;
    assert l[|p|..|p| + |x|] == x;
    assert r[|p|..|p| + |y|] == y;
  }

  /** For one story, distinct scene numbers give distinct file names. */
  lemma FileNameInjective(storyId: Option<int>, a: int, b: int)
    requires FileName(storyId, a) == FileName(storyId, b)
    ensures a == b
  {
    var suffix := "." + ImageExt;
    if IsTruthy(storyId) {
      var p := "scene_" + IntToString(storyId.value) + "_";
      assert FileName(storyId, a) == p + Pad2(a) + suffix;
      assert FileName(storyId, b) == p + Pad2(b) + suffix;
      CancelAround(p, Pad2(a), Pad2(b), suffix);
    } else {
      assert FileName(storyId, a) == "scene_" + Pad2(a) + suffix;
      assert FileName(storyId, b) == "scene_" + Pad2(b) + suffix;
      CancelAround("scene_", Pad2(a), Pad2(b), suffix);
    }
    Pad2Injective(a, b);
  }

  /** The file name never holds a path separator. */
  lemma FileNameHasNoSeparator(storyId: Option<int>, n: int)
    ensures '/' !in FileName(storyId, n)
  {
    NoSlashInPad2(n);
    if IsTruthy(storyId) {
      NoSlashInIntToString(storyId.value);
    }
  }

  lemma NoSlashInPad2(n: int)
    ensures '/' !in Pad2(n)
  {
    if n < 0 {
      NoSlashInDigits(NatToString(-n));
    } else {
      NoSlashInDigits(NatToString(n));
    }
  }

  lemma NoSlashInIntToString(i: int)
    ensures '/' !in IntToString(i)
  {
    if i < 0 {
      NoSlashInDigits(NatToString(-i));
    } else {
      NoSlashInDigits(NatToString(i));
    }
  }

  lemma NoSlashInDigits(s: string)
    requires AllDigits(s)
    ensures '/' !in s
  {
  }

  // ---------------------------------------------------------------------------
  // POSIX paths

  /** `os.path.join(a, b)` on POSIX. */
  function PathJoin(a: string, b: string): string {
    if StartsWith(b, "/") then b
    else if a == "" || EndsWith(a, "/") then a + b
    else a + "/" + b
  }

  /** `os.path.basename(p)`: what follows the last `/`. */
  function Basename(p: string): string {
    match LastIndexOfChar(p, '/')
    case None => p
    case Some(i) => p[i + 1..]
  }

  /** After a separator, the last separator of `x + name` is the one ending `x` when `name` has none. */
  lemma {:induction false} LastSeparator(x: string, name: string)
    requires x != [] && x[|x| - 1] == '/' && '/' !in name
    ensures LastIndexOfChar(x + name, '/') == Some(|x| - 1)
    decreases |name|
  {
    if name == [] {
      assert x + name == x;
    } else {
      var t := x + name;
      assert t[|t| - 1] == name[|name| - 1];
      assert t[..|t| - 1] == x + name[..|name| - 1];
      LastSeparator(x, name[..|name| - 1]);
    }
  }

  /** A name without separators is the base name of any path it is joined to. */
  lemma BasenameOfJoin(dir: string, name: string)
    requires name != [] && '/' !in name
    ensures Basename(PathJoin(dir, name)) == name
  {
    assert !StartsWith(name, "/") by {
      assert name[..1][0] == name[0];
    }
    if dir == "" {
      LastIndexOfCharIsLast(name, '/');
      assert dir + name == name;
    } else if EndsWith(dir, "/") {
      assert dir[|dir| - 1] == dir[|dir| - 1..][0];
      LastSeparator(dir, name);
      assert (dir + name)[|dir|..] == name;
    } else {
      var x := dir + "/";
      assert dir + "/" + name == x + name;
      LastSeparator(x, name);
      assert (x + name)[|x|..] == name;
    }
  }

  // ---------------------------------------------------------------------------
  // _generate_image

  /** The data of the first response part that has inline data. */
  function FirstInlineData(parts: seq<ResponsePart>): (r: Option<seq<Byte>>)
    ensures r.Some? ==> exists i :: 0 <= i < |parts| && parts[i].inlineData == r
                                      && forall j :: 0 <= j < i ==> parts[j].inlineData.None?
    ensures r.None? ==> forall j :: 0 <= j < |parts| ==> parts[j].inlineData.None?
  {
    if parts == [] then None
    else if parts[0].inlineData.Some? then
      assert parts[0].inlineData == parts[0].inlineData;
      parts[0].inlineData
    else
      var r := FirstInlineData(parts[1..]);
      assert forall j :: 1 <= j < |parts| ==> parts[j] == parts[1..][j - 1];
      r
  }

  /** The image `_generate_image` ends up with, or the error it raises. */
  function ImageResult(outcome: ImageCallOutcome, decode: Decoder): Result<Image> {
    match outcome
    case CallTimedOut => Failure(ImageTimeoutMessage)
    case CallRaised(m) => Failure(m)
    case CallReturned(parts) =>
      match FirstInlineData(parts)
      case None => Failure(NoImageMessage)
      case Some(data) => decode(data)
  }

  /** What one call of `generate_image_for_scene` returns or raises, and the previous image it leaves. */
  datatype Attempt = Attempt(result: Result<string>, previous: Option<Image>)

  /** The file path `generate_image_for_scene` writes to. */
  function ScenePath(outputDir: string, storyId: Option<int>, scene: SceneDict): string {
    PathJoin(outputDir, FileName(storyId, scene.sceneNumber.GetOr(1)))
  }

  function SceneAttempt(outputDir: string, storyId: Option<int>, style: string, previous: Option<Image>,
                        scene: SceneDict, outcome: ImageCallOutcome, decode: Decoder): Attempt
  {
    if IsBlank(ScenePrompt(scene)) then Attempt(Failure(EmptyPromptMessage), previous)
    else
      match ImageResult(outcome, decode)
      case Failure(e) => Attempt(Failure(e), previous)
      case Success(img) => Attempt(Success(ScenePath(outputDir, storyId, scene)), Some(img))
  }

  /** The previous image changes only on success, and then to the image just produced. */
  lemma StateChangesOnlyOnSuccess(outputDir: string, storyId: Option<int>, style: string, previous: Option<Image>,
                                  scene: SceneDict, outcome: ImageCallOutcome, decode: Decoder)
    ensures var a := SceneAttempt(outputDir, storyId, style, previous, scene, outcome, decode);
      (a.result.Failure? ==> a.previous == previous)
      && (a.result.Success? <==> !IsBlank(ScenePrompt(scene)) && ImageResult(outcome, decode).Success?)
      && (a.result.Success? ==> a.result.value == ScenePath(outputDir, storyId, scene)
                                 && a.previous == Some(ImageResult(outcome, decode).value))
  {
  }

  /** A blank prompt is refused before any request, whatever the call would have done. */
  lemma BlankPromptIsRefused(outputDir: string, storyId: Option<int>, style: string, previous: Option<Image>,
                             scene: SceneDict, outcome: ImageCallOutcome, decode: Decoder)
    requires IsBlank(ScenePrompt(scene))
    ensures SceneAttempt(outputDir, storyId, style, previous, scene, outcome, decode)
            == Attempt(Failure(EmptyPromptMessage), previous)
  {
  }

  /** A call that timed out, raised, or sent back no inline data leaves the state alone with the matching error. */
  lemma FailedCallKeepsState(outputDir: string, storyId: Option<int>, style: string, previous: Option<Image>,
                             scene: SceneDict, outcome: ImageCallOutcome, decode: Decoder)
    requires !IsBlank(ScenePrompt(scene))
    requires outcome.CallTimedOut? || outcome.CallRaised?
             || (outcome.CallReturned? && forall j :: 0 <= j < |outcome.parts| ==> outcome.parts[j].inlineData.None?)
    ensures var a := SceneAttempt(outputDir, storyId, style, previous, scene, outcome, decode);
      a.previous == previous
      && (outcome.CallTimedOut? ==> a.result == Failure(ImageTimeoutMessage))
      && (outcome.CallRaised? ==> a.result == Failure(outcome.message))
      && (outcome.CallReturned? ==> a.result == Failure(NoImageMessage))
  {
  }

  /** The first part with inline data wins, even when later parts also carry some. */
  lemma FirstInlinePartWins(parts: seq<ResponsePart>, i: nat)
    requires i < |parts| && parts[i].inlineData.Some?
    requires forall j :: 0 <= j < i ==> parts[j].inlineData.None?
    ensures FirstInlineData(parts) == parts[i].inlineData
  {
  }

  // ---------------------------------------------------------------------------
  // The generator

  class ImageGenerator {
    const outputDir: string
    const storyId: Option<int>
    const style: string
    const aspectRatio: string
    /** The last image produced, sent along with the next request for continuity. */
    var previousImage: Option<Image>

    constructor (outputDir: string := OutputDir, storyId: Option<int> := None, style: string := DefaultStyle)
      ensures this.outputDir == outputDir && this.storyId == storyId && this.style == style
      ensures aspectRatio == AspectRatio
      ensures previousImage == None
    {
      this.outputDir := outputDir;
      this.storyId := storyId;
      this.style := style;
      this.aspectRatio := AspectRatio;
      this.previousImage := None;
    }

    /**
     * `generate_image_for_scene`: select the prompt, build the request, name
     * the file and run the call. `request` is the `contents` list sent, `None`
     * when no request was made.
     */
    method GenerateImageForScene(scene: SceneDict, outcome: ImageCallOutcome, decode: Decoder)
      returns (r: Result<string>, request: Option<seq<Part>>)
      modifies this
      ensures Attempt(r, previousImage) == SceneAttempt(outputDir, storyId, style, old(previousImage), scene, outcome, decode)
      ensures request == if IsBlank(ScenePrompt(scene)) then None
                         else Some(Contents(old(previousImage), style, ScenePrompt(scene)))
    {
      var prompt := ScenePrompt(scene);
      if Strip(prompt) == "" {
        return Failure(EmptyPromptMessage), None;
      }
      var contents: seq<Part> := [];
      if previousImage.Some? {
        contents := contents + [InlineImage(previousImage.value, JpegMime)];
        contents := contents + [Text(ContinuityInstruction)];
      }
      contents := contents + [Text(PromptText(style, prompt))];
      assert contents == Contents(previousImage, style, prompt);
      request := Some(contents);
      var filePath := PathJoin(outputDir, FileName(storyId, scene.sceneNumber.GetOr(1)));
      assert filePath == ScenePath(outputDir, storyId, scene);
      r := GenerateImage(filePath, outcome, decode);
    }

    /** `_generate_image`: classify the call's end, take the first inline image, save it and remember it. */
    method GenerateImage(filePath: string, outcome: ImageCallOutcome, decode: Decoder) returns (r: Result<string>)
      modifies this
      ensures var img := ImageResult(outcome, decode);
        (img.Failure? ==> r == Failure(img.error) && previousImage == old(previousImage))
        && (img.Success? ==> r == Success(filePath) && previousImage == Some(img.value))
    {
      if outcome.CallTimedOut? {
        return Failure(ImageTimeoutMessage);
      }
      if outcome.CallRaised? {
        return Failure(outcome.message);
      }
      var parts := outcome.parts;
      var pilImage: Option<Image> := None;
      var i := 0;
      while i < |parts|
        invariant 0 <= i <= |parts|
        invariant forall j :: 0 <= j < i ==> parts[j].inlineData.None?
      {
        if parts[i].inlineData.Some? {
          FirstInlinePartWins(parts, i);
          var decoded := decode(parts[i].inlineData.value);
          if decoded.Failure? {
            return Failure(decoded.error);
          }
          pilImage := Some(decoded.value);
          break;
        }
        i := i + 1;
      }
      if pilImage.None? {
        return Failure(NoImageMessage);
      }
      previousImage := pilImage;
      return Success(filePath);
    }
  }
}
