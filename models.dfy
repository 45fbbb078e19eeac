/**
 * The request models' validation: field bounds first, then each field's own
 * validator, in field order. A value either passes, possibly normalised, or
 * is rejected. Where several fields fail, the request is refused all the
 * same; the model keeps one reason, the first in field order, although the
 * validation library reports every failing field.
 */
module Models {
  import opened Wrappers
  import opened Strings

  /** Why a request was rejected. */
  datatype Invalid =
    | BadLength(field: string)                  // outside the field's length bounds
    | BadValue(field: string, message: string)  // refused by the field's validator
    | BadPattern(field: string)                 // not one of the allowed values
    | OutOfRange(field: string)                 // outside the field's numeric bounds

  datatype Checked<T> = Valid(value: T) | Rejected(reason: Invalid)

  predicate LengthIn(s: string, lo: int, hi: int) {
    lo <= |s| <= hi
  }

  const UsernameMessage: string := "Username must contain only letters, numbers, and underscores"
  const PromptMessage: string := "Prompt must be at least 10 characters"
  const CinematicMessage: string := "Cinematic prompt too short"

  // ---------------------------------------------------------------------------
  // Registration

  datatype Registration = Registration(username: string, email: string, password: string)

  /** `validate_username` as written: it refuses only names that are neither alphanumeric nor hold an underscore. */
  function CheckUsernameAsWritten(v: string): (r: Checked<string>)
    ensures r.Rejected? <==> !IsAlnum(v) && '_' !in v
    ensures r.Valid? ==> r.value == Strip(v)
  {
    if !IsAlnum(v) && '_' !in v then Rejected(BadValue("username", UsernameMessage)) else Valid(Strip(v))
  }

  predicate UsernameChar(c: char) {
    IsAsciiLetterOrDigit(c) || c == '_'
  }

  predicate IsUsername(v: string) {
    forall i :: 0 <= i < |v| ==> UsernameChar(v[i])
  }

  /** `validate_username` as its message says: only letters, digits and underscores; the strip then changes nothing. */
  function CheckUsername(v: string): (r: Checked<string>)
    ensures r.Valid? <==> IsUsername(v)
    ensures r.Valid? ==> r.value == v
  {
    if !IsUsername(v) then Rejected(BadValue("username", UsernameMessage))
    else
      StripNoop(v);
      Valid(Strip(v))
  }

  /** `UserRegister` as written: username 3..50 characters, then its validator; password 6..100 characters. */
  function RegisterAsWritten(username: string, email: string, password: string): (r: Checked<Registration>)
    ensures r.Valid? <==> LengthIn(username, 3, 50) && (IsAlnum(username) || '_' in username) && LengthIn(password, 6, 100)
    ensures r.Valid? ==> r.value == Registration(Strip(username), email, password)
  {
    if !LengthIn(username, 3, 50) then Rejected(BadLength("username"))
    else
      match CheckUsernameAsWritten(username)
      case Rejected(e) => Rejected(e)
      case Valid(u) =>
        if !LengthIn(password, 6, 100) then Rejected(BadLength("password"))
        else Valid(Registration(u, email, password))
  }

  /** `UserRegister` with the corrected username rule. */
  function Register(username: string, email: string, password: string): (r: Checked<Registration>)
    ensures r.Valid? <==> LengthIn(username, 3, 50) && IsUsername(username) && LengthIn(password, 6, 100)
    ensures r.Valid? ==> r.value == Registration(username, email, password)
  {
    if !LengthIn(username, 3, 50) then Rejected(BadLength("username"))
    else
      match CheckUsername(username)
      case Rejected(e) => Rejected(e)
      case Valid(u) =>
        if !LengthIn(password, 6, 100) then Rejected(BadLength("password"))
        else Valid(Registration(u, email, password))
  }

  /** With the corrected rule a stored registration is accepted again unchanged, bounds included. */
  lemma RegisterIsStable(username: string, email: string, password: string)
    requires Register(username, email, password).Valid?
    ensures var s := Register(username, email, password).value;
      Register(s.username, s.email, s.password) == Register(username, email, password)
      && 3 <= |s.username| <= 50 && IsUsername(s.username)
  {
  }

  /** As written, an underscore lets any other character through. */
  lemma UnderscoreAdmitsAnything()
    ensures RegisterAsWritten("a b_!", "e", "secret").Valid?
    ensures Register("a b_!", "e", "secret").Rejected?
  {
    var v := "a b_!";
    assert v[1] == ' ' && !IsAsciiLetterOrDigit(v[1]) && v[3] == '_';
  }

  /** As written, the strip runs after the length check, so a stored name can be shorter than 3. */
  lemma StripAfterLengthCheck()
    ensures var r := RegisterAsWritten(" a_", "e", "secret");
      r.Valid? && r.value.username == "a_" && RegisterAsWritten("a_", "e", "secret").Rejected?
    ensures Register(" a_", "e", "secret").Rejected?
  {
    var v := " a_";
    assert v[2] == '_' && v[0] == ' ' && !IsAsciiLetterOrDigit(v[0]);
    assert IsSpace(v[0]) && v[1..] == "a_";
    assert TrimStart("a_") == "a_";
    assert TrimStart(v) == "a_";
    assert TrimEnd("a_") == "a_";
  }

  // ---------------------------------------------------------------------------
  // Story input

  const StyleNames: set<string> := {"Cinematic", "Anime", "Watercolor", "Noir", "Cyberpunk"}
  const DefaultMaxScenes: int := 8

  datatype StoryInput = StoryInput(prompt: string, style: Option<string>, maxScenes: int)

  /** `StoryInput`: prompt bounds and its validator, the style pattern, the scene-count bounds, in that order. */
  function CheckStoryInput(prompt: string, style: Option<string>, maxScenes: Option<int>): (r: Checked<StoryInput>)
    ensures r.Valid? <==>
      && LengthIn(prompt, 10, 5000) && |Strip(prompt)| >= 10
      && (style.Some? ==> style.value in StyleNames)
      && 3 <= maxScenes.GetOr(DefaultMaxScenes) <= 15
    ensures r.Valid? ==>
      && r.value.prompt == Strip(prompt) && Stripped(r.value.prompt) && 10 <= |r.value.prompt| <= 5000
      && r.value.style == style
      && r.value.maxScenes == maxScenes.GetOr(DefaultMaxScenes) && 3 <= r.value.maxScenes <= 15
  {
    if !LengthIn(prompt, 10, 5000) then Rejected(BadLength("prompt"))
    else if |Strip(prompt)| < 10 then Rejected(BadValue("prompt", PromptMessage))
    else if style.Some? && style.value !in StyleNames then Rejected(BadPattern("style"))
    else
      var n := maxScenes.GetOr(DefaultMaxScenes);
      if !(3 <= n <= 15) then Rejected(OutOfRange("max_scenes"))
      else Valid(StoryInput(Strip(prompt), style, n))
  }

  /** An accepted story input is accepted again unchanged. */
  lemma StoryInputIsStable(prompt: string, style: Option<string>, maxScenes: Option<int>)
    requires CheckStoryInput(prompt, style, maxScenes).Valid?
    ensures var s := CheckStoryInput(prompt, style, maxScenes).value;
      CheckStoryInput(s.prompt, s.style, Some(s.maxScenes)) == Valid(s)
  {
    var s := CheckStoryInput(prompt, style, maxScenes).value;
    StripNoop(s.prompt);
  }

  // ---------------------------------------------------------------------------
  // Scene output and queries

  datatype SceneOutput = SceneOutput(sceneNumber: int, sceneText: string, cinematicPrompt: string)

  /** `SceneOutput`: number at least 1, text at least 10, prompt at least 20 characters (its validator repeats the last bound, so its message is never the reason). */
  function CheckSceneOutput(sceneNumber: int, sceneText: string, cinematicPrompt: string): (r: Checked<SceneOutput>)
    ensures r.Valid? <==> sceneNumber >= 1 && |sceneText| >= 10 && |cinematicPrompt| >= 20
    ensures r.Valid? ==> r.value == SceneOutput(sceneNumber, sceneText, cinematicPrompt)
    ensures r.Rejected? ==> r.reason != BadValue("cinematic_prompt", CinematicMessage)
  {
    if sceneNumber < 1 then Rejected(OutOfRange("scene_number"))
    else if |sceneText| < 10 then Rejected(BadLength("scene_text"))
    else if |cinematicPrompt| < 20 then Rejected(BadLength("cinematic_prompt"))
    else Valid(SceneOutput(sceneNumber, sceneText, cinematicPrompt))
  }

  /** `SearchQuery`: 1..200 characters. */
  function CheckSearchQuery(query: string): (r: Checked<string>)
    ensures r.Valid? <==> 1 <= |query| <= 200
    ensures r.Valid? ==> r.value == query
  {
    if !LengthIn(query, 1, 200) then Rejected(BadLength("query")) else Valid(query)
  }

  /** `CategorizeRequest`: at least 10 characters. */
  function CheckCategorizeRequest(storyText: string): (r: Checked<string>)
    ensures r.Valid? <==> |storyText| >= 10
    ensures r.Valid? ==> r.value == storyText
  {
    if |storyText| < 10 then Rejected(BadLength("story_text")) else Valid(storyText)
  }
}
