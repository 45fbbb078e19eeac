/**
 * The agent's memory: the conversation history it keeps in the object, the
 * preferences it reads off the user's recent stories, and the story context it
 * reads off the stored scenes. Database reads come in as parameters and
 * database writes come out as records.
 */
module Memory {
  import opened Wrappers
  import opened Strings
  import ImageGeneration

  /** One entry of the history: `{"role": ..., "message": ...}`. */
  datatype Message = Message(role: string, message: string)

  /** The row written to the conversations table for each message. */
  datatype ConversationRecord = ConversationRecord(storyId: Option<int>, userId: int, role: string, message: string)

  /** The metadata row written for a saved preference. */
  datatype MetadataRecord = MetadataRecord(storyId: int, key: string, value: string)

  /** A past story as the preference reader sees it; `None` is a missing or empty column. */
  datatype PastStory = PastStory(style: Option<string>, genre: Option<string>)

  /** A stored scene as the story context sees it. */
  datatype SceneRow = SceneRow(sceneNumber: int, sceneText: string)

  datatype Preferences = Preferences(preferredStyle: Option<string>, preferredGenre: Option<string>, averageScenes: int)

  const DefaultLimit: int := 10
  const RecentStories: int := 5
  const AverageScenes: int := 8
  const PreferencePrefix: string := "user_pref_"

  // ---------------------------------------------------------------------------
  // Conversation context

  /** `history[-limit:]` when the history is longer than `limit`, else the whole history. */
  function Recent(history: seq<Message>, limit: int): seq<Message> {
    if |history| > limit then PyDrop(history, -limit) else history
  }

  /**
   * A positive limit keeps the last `limit` messages; a limit of 0 keeps them
   * all, because `-0` is `0`; a negative limit drops the first `-limit`.
   */
  lemma RecentWindow(history: seq<Message>, limit: int)
    ensures limit > 0 ==> Recent(history, limit) == history[|history| - Min(limit, |history|)..]
    ensures limit == 0 ==> Recent(history, limit) == history
    ensures limit < 0 ==> Recent(history, limit) == history[Min(-limit, |history|)..]
  {
  }

  /** The newest message is always part of the context for a limit that is not negative. */
  lemma NewestIsRecent(history: seq<Message>, m: Message, limit: int)
    requires limit >= 0
    ensures var r := Recent(history + [m], limit); r != [] ==> r[|r| - 1] == m
    ensures limit > 0 ==> Recent(history + [m], limit) != []
  {
    RecentWindow(history + [m], limit);
  }

  /** `f"{msg['role']}: {msg['message']}"` for each message. */
  function MessageLines(messages: seq<Message>): (lines: seq<string>)
    ensures |lines| == |messages|
    ensures forall i :: 0 <= i < |messages| ==> lines[i] == messages[i].role + ": " + messages[i].message
  {
    seq(|messages|, i requires 0 <= i < |messages| => messages[i].role + ": " + messages[i].message)
  }

  predicate OneLine(m: Message) {
    '\n' !in m.role && '\n' !in m.message
  }

  /** Splitting the context at newlines gives back one line per recent message, when no message holds a newline. */
  lemma ContextRoundTrip(messages: seq<Message>)
    ensures messages != [] && (forall i :: 0 <= i < |messages| ==> OneLine(messages[i])) ==>
      SplitOn(Join("\n", MessageLines(messages)), '\n') == MessageLines(messages)
  {
    if messages != [] && forall i :: 0 <= i < |messages| ==> OneLine(messages[i]) {
      var lines := MessageLines(messages);
      forall k | 0 <= k < |lines|
        ensures '\n' !in lines[k]
      {
        assert OneLine(messages[k]);
        assert lines[k] == messages[k].role + ": " + messages[k].message;
      }
      SplitJoinRoundTrip(lines, '\n');
    }
  }

  // ---------------------------------------------------------------------------
  // Preferences

  /** The values that are present and not empty, in order. */
  function GivenValues(xs: seq<Option<string>>): (r: seq<string>)
    ensures forall v :: v in r ==> v != ""
  {
    if xs == [] then []
    else (if xs[0].Some? && xs[0].value != "" then [xs[0].value] else []) + GivenValues(xs[1..])
  }

  /** Each non-empty value occurs as often as it was given. */
  lemma {:induction false} GivenValuesCount(xs: seq<Option<string>>, v: string)
    requires v != ""
    ensures multiset(GivenValues(xs))[v] == multiset(xs)[Some(v)]
  {
    if xs != [] {
      GivenValuesCount(xs[1..], v);
      assert xs == [xs[0]] + xs[1..];
    }
  }

  /** The candidate seen first among those that occur most often in `xs`. */
  function Best(xs: seq<string>, candidates: seq<string>): (r: string)
    requires candidates != []
    ensures r in candidates
    ensures forall c :: c in candidates ==> multiset(xs)[c] <= multiset(xs)[r]
    decreases |candidates|
  {
    if |candidates| == 1 then candidates[0]
    else
      var b := Best(xs, candidates[1..]);
      assert forall c :: c in candidates ==> c == candidates[0] || c in candidates[1..];
      if multiset(xs)[candidates[0]] >= multiset(xs)[b] then candidates[0] else b
  }

  /** `max(set(xs), key=xs.count)`, with ties going to the value seen first. */
  function MostFrequent(xs: seq<string>): (r: string)
    requires xs != []
    ensures r in xs && forall v :: multiset(xs)[v] <= multiset(xs)[r]
  {
    var r := Best(xs, xs);
    assert forall v :: v !in xs ==> multiset(xs)[v] == 0;
    r
  }

  function Styles(stories: seq<PastStory>): (r: seq<Option<string>>)
    ensures |r| == |stories| && forall i :: 0 <= i < |stories| ==> r[i] == stories[i].style
  {
    seq(|stories|, i requires 0 <= i < |stories| => stories[i].style)
  }

  function Genres(stories: seq<PastStory>): (r: seq<Option<string>>)
    ensures |r| == |stories| && forall i :: 0 <= i < |stories| ==> r[i] == stories[i].genre
  {
    seq(|stories|, i requires 0 <= i < |stories| => stories[i].genre)
  }

  /** The most frequent non-empty value, if any. */
  function Preferred(values: seq<Option<string>>): Option<string> {
    var given := GivenValues(values);
    if given == [] then None else Some(MostFrequent(given))
  }

  /** `get_user_preferences`, given the user's stories newest first: only the five newest are consulted. */
  function UserPreferences(stories: seq<PastStory>): Preferences {
    var past := PyTake(stories, RecentStories);
    if past == [] then Preferences(None, None, AverageScenes)
    else Preferences(Preferred(Styles(past)), Preferred(Genres(past)), AverageScenes)
  }

  /** A preferred value is present exactly when some value is given, and then it is a most frequent one. */
  lemma PreferredIsMode(values: seq<Option<string>>)
    ensures Preferred(values).None? <==> forall v :: v != "" ==> Some(v) !in values
    ensures Preferred(values).Some? ==>
      var p := Preferred(values).value;
      p != "" && Some(p) in values && forall v :: v != "" ==> multiset(values)[Some(v)] <= multiset(values)[Some(p)]
  {
    var given := GivenValues(values);
    if given == [] {
      forall v | v != ""
        ensures Some(v) !in values
      {
        GivenValuesCount(values, v);
      }
    } else {
      var p := MostFrequent(given);
      GivenValuesCount(values, p);
      forall v | v != ""
        ensures multiset(values)[Some(v)] <= multiset(values)[Some(p)]
      {
        GivenValuesCount(values, v);
      }
    }
  }

  /** The preferences read only the five newest stories, and the scene count is always 8. */
  lemma UserPreferencesShape(stories: seq<PastStory>)
    ensures var p := UserPreferences(stories);
      && p.averageScenes == AverageScenes
      && p.preferredStyle == Preferred(Styles(PyTake(stories, RecentStories)))
      && p.preferredGenre == Preferred(Genres(PyTake(stories, RecentStories)))
      && |PyTake(stories, RecentStories)| == Min(RecentStories, |stories|)
  {
    PyTakeNonNegative(stories, RecentStories);
    var past := PyTake(stories, RecentStories);
    if past == [] {
      assert Styles(past) == [] && Genres(past) == [];
    }
  }

  // ---------------------------------------------------------------------------
  // Story context

  function SceneLines(scenes: seq<SceneRow>): (lines: seq<string>)
    ensures |lines| == |scenes|
    ensures forall i :: 0 <= i < |scenes| ==>
      lines[i] == "Scene " + IntToString(scenes[i].sceneNumber) + ": " + scenes[i].sceneText
  {
    seq(|scenes|, i requires 0 <= i < |scenes| => "Scene " + IntToString(scenes[i].sceneNumber) + ": " + scenes[i].sceneText)
  }

  lemma NoNewlineInIntToString(i: int)
    ensures '\n' !in IntToString(i)
  {
    var digits := if i < 0 then NatToString(-i) else NatToString(i);
    assert AllDigits(digits);
    assert '\n' !in digits;
  }

  /** Splitting the story context at newlines gives back one line per scene, when no scene text holds a newline. */
  lemma SceneContextRoundTrip(scenes: seq<SceneRow>)
    ensures scenes != [] && (forall i :: 0 <= i < |scenes| ==> '\n' !in scenes[i].sceneText) ==>
      SplitOn(Join("\n", SceneLines(scenes)), '\n') == SceneLines(scenes)
  {
    if scenes != [] && forall i :: 0 <= i < |scenes| ==> '\n' !in scenes[i].sceneText {
      var lines := SceneLines(scenes);
      forall k | 0 <= k < |lines|
        ensures '\n' !in lines[k]
      {
        NoNewlineInIntToString(scenes[k].sceneNumber);
        assert lines[k] == "Scene " + IntToString(scenes[k].sceneNumber) + ": " + scenes[k].sceneText;
      }
      SplitJoinRoundTrip(lines, '\n');
    }
  }

  /** The metadata key of a preference. */
  function PreferenceKey(key: string): string {
    PreferencePrefix + key
  }

  /** Different preferences are stored under different keys. */
  lemma PreferenceKeyInjective(a: string, b: string)
    requires PreferenceKey(a) == PreferenceKey(b)
    ensures a == b
  {
    assert a == PreferenceKey(a)[|PreferencePrefix|..];
    assert b == PreferenceKey(b)[|PreferencePrefix|..];
  }

  class AgentMemory {
    const userId: int
    const storyId: Option<int>
    var conversationHistory: seq<Message>

    constructor (userId: int, storyId: Option<int> := None)
      ensures this.userId == userId && this.storyId == storyId
      ensures conversationHistory == []
    {
      this.userId := userId;
      this.storyId := storyId;
      conversationHistory := [];
    }

    /** `add_message`: one entry at the end of the history, and one row for the database. */
    method AddMessage(role: string, message: string) returns (record: ConversationRecord)
      modifies this
      ensures conversationHistory == old(conversationHistory) + [Message(role, message)]
      ensures record == ConversationRecord(storyId, userId, role, message)
    {
      conversationHistory := conversationHistory + [Message(role, message)];
      record := ConversationRecord(storyId, userId, role, message);
    }

    /** `get_conversation_context`: the recent messages, one `role: message` line each. */
    function ConversationContext(limit: int := DefaultLimit): (r: string)
      reads this
      ensures r == Join("\n", MessageLines(Recent(conversationHistory, limit)))
      ensures var recent := Recent(conversationHistory, limit);
        recent != [] && (forall i :: 0 <= i < |recent| ==> OneLine(recent[i])) ==> SplitOn(r, '\n') == MessageLines(recent)
    {
      var recent := Recent(conversationHistory, limit);
      ContextRoundTrip(recent);
      Join("\n", MessageLines(recent))
    }

    /** `save_preference`: a metadata row under `user_pref_<key>` when there is a story, else nothing. */
    function SavePreference(key: string, value: string): (r: Option<MetadataRecord>)
      ensures r.None? <==> !ImageGeneration.IsTruthy(storyId)
      ensures r.Some? ==>
        (r.value.storyId == storyId.value && r.value.value == value
         && StartsWith(r.value.key, PreferencePrefix) && r.value.key[|PreferencePrefix|..] == key)
    {
      if ImageGeneration.IsTruthy(storyId) then Some(MetadataRecord(storyId.value, PreferenceKey(key), value)) else None
    }

    /** `get_story_context`, given the story's scenes in scene order. */
    function StoryContext(scenes: seq<SceneRow>): (r: Option<string>)
      ensures r.None? <==> !ImageGeneration.IsTruthy(storyId) || scenes == []
      ensures r.Some? ==> r.value == Join("\n", SceneLines(scenes))
      ensures r.Some? && (forall i :: 0 <= i < |scenes| ==> '\n' !in scenes[i].sceneText) ==>
        SplitOn(r.value, '\n') == SceneLines(scenes)
    {
      if !ImageGeneration.IsTruthy(storyId) || scenes == [] then None
      else
        SceneContextRoundTrip(scenes);
        Some(Join("\n", SceneLines(scenes)))
    }
  }
}
