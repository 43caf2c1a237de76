/**
 * The persona chat panel's state: which persona is open, the per-persona message
 * histories, the text/audio mode switch and the push-to-talk recording guard. The DOM,
 * the network and the microphone are outside the model.
 */
module Chat {
  import opened Wrappers
  import Personas
  import Conversations

  /** Who wrote a message: `'user'`, `'assistant'`, or `'system'` (the join notice). */
  datatype Role = User | Assistant | System

  /** One history entry; `audioUrl` None stands for `null`. */
  datatype Message = Message(role: Role, content: string, audioUrl: Option<string>, timestamp: int)

  /** One recorded audio chunk, as delivered by the media recorder. */
  type Chunk = seq<bv8>

  /**
   * The panel's state. `hasAudioStream` records whether the microphone request
   * succeeded; `chattingUnit` is the avatar whose click opened the panel
   * (`window.currentChattingUnit`).
   */
  datatype ChatState = ChatState(
    activePersona: Option<Personas.Persona>,
    isAudioMode: bool,
    isRecording: bool,
    hasAudioStream: bool,
    audioChunks: seq<Chunk>,
    history: map<string, seq<Message>>,
    chattingUnit: Option<Conversations.Unit>)

  /** The state right after construction, given the outcome of the microphone request. */
  function Initial(hasAudioStream: bool): (r: ChatState)
    ensures r.activePersona.None? && !r.isAudioMode && !r.isRecording
    ensures r.hasAudioStream == hasAudioStream
    ensures r.audioChunks == [] && r.history == map[] && r.chattingUnit.None?
  {
    ChatState(None, false, false, hasAudioStream, [], map[], None)
  }

  /** The stored history of a persona; a persona never written to reads as empty. */
  function HistoryOf(s: ChatState, id: string): seq<Message> {
    if id in s.history then s.history[id] else []
  }

  // ---------------------------------------------------------------------------
  // Opening and writing

  /**
   * `openChat`, looking the id up in `registry` (the program's registry is
   * `Personas.PERSONAS`): an id the registry does not know changes nothing; a known id
   * becomes the active persona. The histories, the mode and the recorder are left alone.
   */
  function OpenChat(registry: seq<Personas.Persona>, s: ChatState, personaId: string): (r: ChatState)
    ensures Personas.Find(registry, personaId).None? ==> r == s
    ensures Personas.Find(registry, personaId).Some? ==>
      && r.activePersona.Some?
      && r.activePersona.value.id == personaId
      && r.activePersona.value in registry
      && r == s.(activePersona := r.activePersona)
  {
    match Personas.Find(registry, personaId)
    case None => s
    case Some(p) => s.(activePersona := Some(p))
  }

  /**
   * `addMessage`: without an active persona nothing happens; otherwise exactly one
   * message, stamped with `now`, goes to the end of the active persona's history and
   * every other history is untouched.
   */
  function AddMessage(s: ChatState, role: Role, content: string, audioUrl: Option<string>, now: int): (r: ChatState)
    ensures s.activePersona.None? ==> r == s
    ensures s.activePersona.Some? ==>
      var id := s.activePersona.value.id;
      && r == s.(history := r.history)
      && r.history.Keys == s.history.Keys + {id}
      && HistoryOf(r, id) == HistoryOf(s, id) + [Message(role, content, audioUrl, now)]
      && (forall other :: other in s.history && other != id ==> r.history[other] == s.history[other])
  {
    match s.activePersona
    case None => s
    case Some(p) =>
      s.(history := s.history[p.id := HistoryOf(s, p.id) + [Message(role, content, audioUrl, now)]])
  }

  // ---------------------------------------------------------------------------
  // The blank-text guard of sendMessage

  /**
   * The characters `String.prototype.trim` strips: the white space and line
   * terminator code points of section 12.2 and 12.3 of ECMA-262.
   */
  const JS_WHITESPACE: set<char> := {
    '\U{0009}', '\U{000A}', '\U{000B}', '\U{000C}', '\U{000D}', '\U{0020}', '\U{00A0}', '\U{1680}',
    '\U{2000}', '\U{2001}', '\U{2002}', '\U{2003}', '\U{2004}', '\U{2005}', '\U{2006}', '\U{2007}',
    '\U{2008}', '\U{2009}', '\U{200A}', '\U{2028}', '\U{2029}', '\U{202F}', '\U{205F}', '\U{3000}',
    '\U{FEFF}'
  }

  predicate IsJsWhitespace(c: char) {
    c in JS_WHITESPACE
  }

  /** Every character of `text` is white space (vacuously so for the empty string). */
  predicate Blank(text: string) {
    forall i :: 0 <= i < |text| ==> IsJsWhitespace(text[i])
  }

  /** The length of the run of white space that `text` starts with. */
  function LeadingSpace(text: string): (n: nat)
    ensures n <= |text| && Blank(text[..n])
    ensures n < |text| ==> !IsJsWhitespace(text[n])
    decreases |text|
  {
    if |text| > 0 && IsJsWhitespace(text[0]) then
      var m := LeadingSpace(text[1..]);
      assert text[..m + 1] == [text[0]] + text[1..][..m];
      m + 1
    else 0
  }

  /** The length of the run of white space that `text` ends with. */
  function TrailingSpace(text: string): (n: nat)
    ensures n <= |text| && Blank(text[|text| - n..])
    ensures n < |text| ==> !IsJsWhitespace(text[|text| - n - 1])
    decreases |text|
  {
    if |text| > 0 && IsJsWhitespace(text[|text| - 1]) then
      var m := TrailingSpace(text[..|text| - 1]);
      assert text[|text| - (m + 1)..] == text[..|text| - 1][|text| - 1 - m..] + [text[|text| - 1]];
      m + 1
    else 0
  }

  /** Drop leading white space: the result is a suffix of `text` that starts with a non-space, or is empty. */
  function TrimStart(text: string): (r: string)
    ensures |r| <= |text| && r == text[|text| - |r|..]
    ensures |r| > 0 ==> !IsJsWhitespace(r[0])
    ensures Blank(text[..|text| - |r|])
  {
    text[LeadingSpace(text)..]
  }

  /** Drop trailing white space: the result is a prefix of `text` that ends with a non-space, or is empty. */
  function TrimEnd(text: string): (r: string)
    ensures |r| <= |text| && r == text[..|r|]
    ensures |r| > 0 ==> !IsJsWhitespace(r[|r| - 1])
    ensures Blank(text[|r|..])
  {
    text[..|text| - TrailingSpace(text)]
  }

  /** `String.prototype.trim`: the result neither starts nor ends with white space. */
  function Trim(text: string): (r: string)
    ensures |r| <= |text|
    ensures |r| > 0 ==> !IsJsWhitespace(r[0]) && !IsJsWhitespace(r[|r| - 1])
  {
    var t := TrimStart(text);
    var r := TrimEnd(t);
    assert |r| > 0 ==> r[0] == t[0];
    r
  }

  /** Trimming takes a contiguous middle part of the text, starting where the leading white space ends. */
  lemma TrimIsSlice(text: string)
    ensures
      var r := Trim(text);
      var k := |text| - |TrimStart(text)|;
      k + |r| <= |text| && r == text[k..k + |r|]
  {
    var t := TrimStart(text);
    var r := TrimEnd(t);
    assert t == text[|text| - |t|..] && r == t[..|r|];
    PrefixOfSuffix(text, t, r, |text| - |t|);
  }

  /** What trimming drops, on either side of the middle part, is white space only. */
  lemma TrimDropsOnlyWhitespace(text: string)
    ensures
      var r := Trim(text);
      var k := |text| - |TrimStart(text)|;
      k + |r| <= |text| && Blank(text[..k]) && Blank(text[k + |r|..])
  {
    var t := TrimStart(text);
    var r := TrimEnd(t);
    assert t == text[|text| - |t|..] && |r| <= |t|;
    SuffixOfSuffix(text, t, |text| - |t|, |r|);
  }

  /** A prefix of a suffix of `s` is a slice of `s`. */
  lemma PrefixOfSuffix<T>(s: seq<T>, t: seq<T>, r: seq<T>, k: nat)
    requires k <= |s| && t == s[k..] && |r| <= |t| && r == t[..|r|]
    ensures k + |r| <= |s| && r == s[k..k + |r|]
  {
  }

  /** A suffix of a suffix of `s` is a suffix of `s`. */
  lemma SuffixOfSuffix<T>(s: seq<T>, t: seq<T>, k: nat, n: nat)
    requires k <= |s| && t == s[k..] && n <= |t|
    ensures k + n <= |s| && t[n..] == s[k + n..]
  {
  }

  /** Trimming leaves nothing exactly when the text is all white space. */
  lemma TrimEmptyIffBlank(text: string)
    ensures Trim(text) == "" <==> Blank(text)
  {
    var t := TrimStart(text);
    var k := |text| - |t|;
    assert text == text[..k] + t;
    if Trim(text) == "" {
      // the whole of `t` is trailing white space, so `t` is empty
      assert Blank(t[0..]);
      assert |t| == 0;
      assert text[..k] == text;
    } else {
      var u := Trim(text);
      assert u == t[..|u|];
      assert !IsJsWhitespace(text[k]);
    }
  }

  /** Trimming leaves the text unchanged when it neither starts nor ends with white space. */
  lemma TrimKeepsTightText(text: string)
    requires |text| > 0 ==> !IsJsWhitespace(text[0]) && !IsJsWhitespace(text[|text| - 1])
    ensures Trim(text) == text
  {
  }

  /**
   * The synchronous part of `sendMessage`: nothing happens without an active persona
   * or when the text trims to nothing; otherwise the text, untrimmed, is appended as
   * the user's message. The backend's answer is outside the model.
   */
  function SendMessage(s: ChatState, text: string, now: int): (r: ChatState)
    ensures s.activePersona.None? || Blank(text) ==> r == s
    ensures s.activePersona.Some? && !Blank(text) ==>
      var id := s.activePersona.value.id;
      && r == s.(history := r.history)
      && r.history.Keys == s.history.Keys + {id}
      && HistoryOf(r, id) == HistoryOf(s, id) + [Message(User, text, None, now)]
      && (forall other :: other in s.history && other != id ==> r.history[other] == s.history[other])
  {
    TrimEmptyIffBlank(text);
    if s.activePersona.None? || Trim(text) == "" then s
    else AddMessage(s, User, text, None, now)
  }

  /**
   * `playHello`, up to its speech request: without an active persona nothing happens;
   * otherwise the persona's greeting is appended as an assistant message.
   */
  function PlayHello(s: ChatState, now: int): (r: ChatState)
    ensures s.activePersona.None? ==> r == s
    ensures s.activePersona.Some? ==>
      var p := s.activePersona.value;
      && r == s.(history := r.history)
      && r.history.Keys == s.history.Keys + {p.id}
      && HistoryOf(r, p.id) == HistoryOf(s, p.id) + [Message(Assistant, p.greeting, None, now)]
      && (forall other :: other in s.history && other != p.id ==> r.history[other] == s.history[other])
  {
    match s.activePersona
    case None => s
    case Some(p) => AddMessage(s, Assistant, p.greeting, None, now)
  }

  // ---------------------------------------------------------------------------
  // Mode and recording

  /** `toggleMode`: flip between text and audio mode; nothing else changes. */
  function ToggleMode(s: ChatState): (r: ChatState)
    ensures r.isAudioMode == !s.isAudioMode
    ensures r == s.(isAudioMode := r.isAudioMode)
  {
    s.(isAudioMode := !s.isAudioMode)
  }

  /** Toggling twice restores the original mode and state. */
  lemma ToggleTwiceRestores(s: ChatState)
    ensures ToggleMode(ToggleMode(s)) == s
  {
  }

  /**
   * `startRecording`: without a microphone stream, or while already recording,
   * nothing happens; otherwise recording starts with no chunks collected.
   */
  function StartRecording(s: ChatState): (r: ChatState)
    ensures !s.hasAudioStream || s.isRecording ==> r == s
    ensures s.hasAudioStream && !s.isRecording ==> r == s.(isRecording := true, audioChunks := [])
  {
    if !s.hasAudioStream || s.isRecording then s
    else s.(isRecording := true, audioChunks := [])
  }

  /** The recorder's data handler: each delivered chunk goes to the end of the collected ones. */
  function ReceiveChunk(s: ChatState, chunk: Chunk): (r: ChatState)
    ensures r.audioChunks == s.audioChunks + [chunk]
    ensures r == s.(audioChunks := r.audioChunks)
  {
    s.(audioChunks := s.audioChunks + [chunk])
  }

  /** `stopRecording`: when not recording nothing happens; otherwise recording stops and the chunks are kept. */
  function StopRecording(s: ChatState): (r: ChatState)
    ensures !s.isRecording ==> r == s
    ensures s.isRecording ==> r == s.(isRecording := false)
  {
    if !s.isRecording then s else s.(isRecording := false)
  }

  /** A second press (or a repeated touch) of push-to-talk changes nothing. */
  lemma StartRecordingIdempotent(s: ChatState)
    ensures StartRecording(StartRecording(s)) == StartRecording(s)
  {
  }

  /** Releasing the button twice (mouseup then mouseleave) is the same as releasing it once. */
  lemma StopRecordingIdempotent(s: ChatState)
    ensures StopRecording(StopRecording(s)) == StopRecording(s)
  {
  }

  /**
   * One push-to-talk press: starting, receiving chunks and stopping leaves exactly
   * the chunks received during the press, and the recorder idle again.
   */
  lemma PushToTalkCollectsChunks(s: ChatState, chunks: seq<Chunk>)
    requires s.hasAudioStream && !s.isRecording
    ensures StopRecording(ReceiveAll(StartRecording(s), chunks)) == s.(audioChunks := chunks)
  {
    ReceiveAllAppends(StartRecording(s), chunks);
  }

  /** Deliver the chunks one after the other. */
  function ReceiveAll(s: ChatState, chunks: seq<Chunk>): ChatState
    decreases |chunks|
  {
    if |chunks| == 0 then s else ReceiveAll(ReceiveChunk(s, chunks[0]), chunks[1..])
  }

  /** Delivering a run of chunks appends them in order and touches nothing else. */
  lemma {:induction false} ReceiveAllAppends(s: ChatState, chunks: seq<Chunk>)
    ensures ReceiveAll(s, chunks) == s.(audioChunks := s.audioChunks + chunks)
    decreases |chunks|
  {
    if |chunks| > 0 {
      ReceiveAllAppends(ReceiveChunk(s, chunks[0]), chunks[1..]);
      assert s.audioChunks + [chunks[0]] + chunks[1..] == s.audioChunks + chunks;
    }
  }

  /** While recording, another start does not discard the chunks collected so far. */
  lemma StartWhileRecordingKeepsChunks(s: ChatState)
    requires s.isRecording
    ensures StartRecording(s).audioChunks == s.audioChunks
  {
  }

  // ---------------------------------------------------------------------------
  // Closing

  /** The panel after `closeChat`, and the avatar it hands back, if any, now idle. */
  datatype Closed = Closed(state: ChatState, released: Option<Conversations.Unit>)

  /**
   * `closeChat`: the active persona is always cleared; a chatting avatar is handed
   * back with status `'idle'` and the reference cleared. Histories are kept, so
   * reopening a persona shows its earlier messages.
   */
  function CloseChat(s: ChatState): (r: Closed)
    ensures r.state.activePersona.None?
    ensures r.state.chattingUnit.None?
    ensures r.state == s.(activePersona := None, chattingUnit := None)
    ensures s.chattingUnit.None? <==> r.released.None?
    ensures s.chattingUnit.Some? ==>
      r.released == Some(s.chattingUnit.value.(status := Conversations.IDLE))
  {
    var released := match s.chattingUnit
      case None => None
      case Some(u) => Some(u.(status := Conversations.IDLE));
    Closed(s.(activePersona := None, chattingUnit := None), released)
  }

  /** After a close, writing a message is a no-op until a persona is opened again. */
  lemma NoMessagesAfterClose(s: ChatState, role: Role, content: string, audioUrl: Option<string>, now: int)
    ensures AddMessage(CloseChat(s).state, role, content, audioUrl, now) == CloseChat(s).state
  {
  }

  /**
   * Opening a known persona and writing a message appends it to that persona's
   * history, whichever persona was open before.
   */
  lemma OpenThenAddGoesToOpenedPersona(
    registry: seq<Personas.Persona>, s: ChatState, personaId: string,
    role: Role, content: string, audioUrl: Option<string>, now: int)
    requires Personas.Find(registry, personaId).Some?
    ensures
      var r := AddMessage(OpenChat(registry, s, personaId), role, content, audioUrl, now);
      && HistoryOf(r, personaId) == HistoryOf(s, personaId) + [Message(role, content, audioUrl, now)]
      && (forall other :: other in s.history && other != personaId ==> r.history[other] == s.history[other])
  {
  }

  /** Closing and reopening the same persona brings back its history unchanged. */
  lemma ReopenKeepsHistory(registry: seq<Personas.Persona>, s: ChatState, personaId: string)
    ensures HistoryOf(OpenChat(registry, CloseChat(s).state, personaId), personaId) == HistoryOf(s, personaId)
  {
  }

  /** Write the contents one after the other with the same role and clock reading. */
  function AddAll(s: ChatState, role: Role, contents: seq<string>, now: int): ChatState
    decreases |contents|
  {
    if |contents| == 0 then s else AddAll(AddMessage(s, role, contents[0], None, now), role, contents[1..], now)
  }

  /** A run of messages lands in the active persona's history, in order, one entry per message. */
  lemma {:induction false} AddAllAppendsInOrder(s: ChatState, role: Role, contents: seq<string>, now: int)
    requires s.activePersona.Some?
    ensures
      var id := s.activePersona.value.id;
      var r := AddAll(s, role, contents, now);
      && r.activePersona == s.activePersona
      && |HistoryOf(r, id)| == |HistoryOf(s, id)| + |contents|
      && HistoryOf(r, id)[..|HistoryOf(s, id)|] == HistoryOf(s, id)
      && (forall i :: 0 <= i < |contents| ==>
            HistoryOf(r, id)[|HistoryOf(s, id)| + i] == Message(role, contents[i], None, now))
    decreases |contents|
  {
    if |contents| > 0 {
      var id := s.activePersona.value.id;
      var next := AddMessage(s, role, contents[0], None, now);
      AddAllAppendsInOrder(next, role, contents[1..], now);
      var r := AddAll(s, role, contents, now);
      var n := |HistoryOf(s, id)|;
      assert HistoryOf(next, id) == HistoryOf(s, id) + [Message(role, contents[0], None, now)];
      forall i | 0 <= i < |contents|
        ensures HistoryOf(r, id)[n + i] == Message(role, contents[i], None, now)
      {
        if i == 0 {
          assert HistoryOf(r, id)[..n + 1] == HistoryOf(next, id);
        } else {
          assert HistoryOf(r, id)[n + 1 + (i - 1)] == Message(role, contents[1..][i - 1], None, now);
        }
      }
      assert HistoryOf(r, id)[..n] == HistoryOf(r, id)[..n + 1][..n];
    }
  }
}
