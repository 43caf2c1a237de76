# ClawCraft persona world: a Dafny model

ClawCraft draws an isometric command-centre world. Persona avatars walk around in it and
bump into each other. When two avatars that are not on cooldown meet, they start a short
conversation, generated by a backend endpoint (with a scripted fallback). It is shown as
speech bubbles, and the transcript goes to Discord.
Clicking an avatar opens a chat panel with that persona. This project models the parts
of the program that are bookkeeping rather than drawing or networking:

- `personas.dfy` (module `Personas`) holds the persona registry and its lookups by id.
- `conversations.dfy` (module `Conversations`) holds the encounter engine:
  - the proximity test and the order-independent pair key;
  - the five-minute cooldown ledger and per-participant exclusion;
  - a conversation in two halves, `Begin` (the synchronous start) and `Complete`
    (the asynchronous remainder once the dialogue has played);
  - the fallback dialogue, the speech-bubble map and its expiry sweep.
- `discord_channels.dfy` (module `DiscordChannels`) holds the backend's outbound queue
  for the Discord gateway and its channel table.
- `isometric.dfy` (module `Isometric`) holds:
  - the grid/screen projection;
  - building creation;
  - the merge of building statuses pushed by the backend;
  - the back-to-front draw order.
- `chat.dfy` (module `Chat`) holds the chat panel's state:
  - per-persona histories;
  - the text/audio mode;
  - the push-to-talk guard;
  - closing the panel.
- `wrappers.dfy` (module `Wrappers`) holds `Option`, which stands for JavaScript's
  `undefined`/`null`.

The program keeps its state in module-level maps and mutable objects. Here each piece
of state is an immutable record:
- `Conversations.Engine` for the conversation maps;
- `DiscordChannels` uses a plain `seq` for the queue;
- `Isometric.World` for the entities;
- `Chat.ChatState` for the panel.

Every operation is a pure function from the old state to the new one. The clock is an
integer parameter `now` in milliseconds. Units are values that an operation hands back
with their new status. Whatever the network or the model service would have answered
is an input: `Conversations.Reply` for the generation request.

## Model

| member | source | states |
|---|---|---|
| `Personas.FindIndex` | frontend/src/personas.js:152 | the index found holds the id and no earlier entry does; None means no entry has the id |
| `Personas.Find` | frontend/src/personas.js:152 | a persona found carries the requested id and comes from the table; nothing is found exactly when no entry has the id |
| `Personas.GetPersona` | frontend/src/personas.js:151-153 | `getPersona` answers with a registry entry whose id is the argument, and with `undefined` exactly when no entry has that id |
| `Personas.Ids` | frontend/src/personas.js:157 | the id list has one element per table entry, the i-th being the i-th entry's id |
| `Personas.GetPersonaIds` | frontend/src/personas.js:156-158 | `getPersonaIds` has the registry's length and lists `PERSONAS[i].id` at position i |
| `Personas.FindReturnsFirst` | frontend/src/personas.js:152 | when entry i is the first with the id, the lookup answers with entry i |
| `Personas.FindOfIdIsEntry` | frontend/src/personas.js:152-157 | in a table with distinct ids, looking up the i-th listed id gives the i-th entry |
| `Personas.RegistryIdsAreListed` | frontend/src/personas.js:4-148 | the registry's ids, in order, are the seventeen ids hormozi … dalio |
| `Personas.UnlistedIdIsUnknown` | frontend/src/personas.js:151-153 | an id outside those seventeen is not found |
| `Personas.RegistryIdsDistinct` | frontend/src/personas.js:4-148 | no two registry entries share an id |
| `Personas.GetPersonaOfListedId` | frontend/src/personas.js:151-158 | `getPersona(getPersonaIds()[i])` is `PERSONAS[i]` |
| `Personas.ListedIffKnown` | frontend/src/personas.js:151-158 | an id is listed by `getPersonaIds` exactly when `getPersona` finds it |
| `Personas.IdsIffFound` | frontend/src/personas.js:151-158 | for any table, an id is among its ids exactly when the `find` lookup returns an entry |
| `Conversations.CheckProximity` | frontend/src/conversations.js:22-26 | the test is strict: it is never met when the threshold is zero or negative |
| `Conversations.CheckProximityDefault` | frontend/src/conversations.js:22 | with the default threshold of 2, two units are close exactly when their squared distance is below 4 |
| `Conversations.SameSpotIsClose` | frontend/src/conversations.js:22-26 | two units on the same spot are close exactly when the threshold is positive |
| `Conversations.ProximityIsDistanceBelowThreshold` | frontend/src/conversations.js:22-26 | the squared-distance test agrees with "Euclidean distance strictly below the threshold", for every threshold, negative ones included |
| `Conversations.ProximitySymmetric` | frontend/src/conversations.js:22-26 | swapping the two units never changes the proximity answer |
| `Conversations.BeforeAsymmetric` | frontend/src/conversations.js:30 | the string order used by the pair key's sort never puts each of two strings before the other |
| `Conversations.BeforeTotal` | frontend/src/conversations.js:30 | of two different strings, one sorts before the other |
| `Conversations.PairKey` | frontend/src/conversations.js:29-31 | the key is the two ids joined by '-', the one that sorts first in front |
| `Conversations.PairKeySymmetric` | frontend/src/conversations.js:29-31 | the pair key does not depend on the order of the two ids |
| `Conversations.PairKeyIdentifiesPair` | frontend/src/conversations.js:29-31 | for ids without '-', two pairs get the same key exactly when they are the same unordered pair |
| `Conversations.RegistryIdsDashFree` | frontend/src/personas.js:4-148 | no registry id contains '-', so on registry personas each pair has its own ledger key |
| `Conversations.CanConverseSymmetric` | frontend/src/conversations.js:34-38 | the cooldown answer does not depend on the order of the ids |
| `Conversations.CanConverse` | frontend/src/conversations.js:13-38 | a pair with no ledger entry is measured from time 0, so it may talk exactly when `now` exceeds 300000 ms; otherwise it may talk exactly when `now` is more than 300000 ms past its entry |
| `Conversations.CanConverseStaysTrue` | frontend/src/conversations.js:34-38 | once a pair may talk, it may talk at every later time while its ledger entry is unchanged |
| `Conversations.Begin` | frontend/src/conversations.js:42-54 | the start goes through exactly when the cooldown has strictly passed and neither id is in a conversation; otherwise nothing at all changes; when it goes through, each id maps to the other, earlier entries are kept, the pair's ledger entry is `now` and nothing else in the ledger changes, and both units are 'talking' |
| `Conversations.BeginKeepsPaired` | frontend/src/conversations.js:46-47 | a start keeps the exclusion map symmetric: every id maps to a partner that maps back |
| `Conversations.TalkingUnitsAreExcluded` | frontend/src/conversations.js:43 | while a unit is in a conversation, no other start involving it goes through, at any time |
| `Conversations.Fallback` | frontend/src/conversations.js:122-127 | the fallback exchange has four non-empty turns, the first persona speaking turns 0 and 2 and the second turns 1 and 3 |
| `Conversations.Generate` | frontend/src/conversations.js:99-128 | a failed request gives the fallback; a successful one is used as it came, even when empty; a body that is not a list of turns shows its readable turns and then throws |
| `Conversations.Speaker` | frontend/src/conversations.js:67 | a turn naming the first persona is shown on the first unit, and every other turn on the second |
| `Conversations.ShowBubble` | frontend/src/conversations.js:70-74 | a bubble is keyed by the speaker's id and replaces any bubble it had; it carries the turn's text and the speaker's colour and expires 4000 ms after it goes up; all other bubbles are kept |
| `Conversations.Play` | frontend/src/conversations.js:66-80 | the display loop shows one bubble per turn, in order, on the turn's speaker; turn i goes up at `start + 4500·i` and expires 4000 ms later; afterwards the bubbles of the units that spoke are gone and all others are as before |
| `Conversations.Release` | frontend/src/conversations.js:89-93 | cleanup makes both units 'idle', removes both ids from the exclusion map and keeps every other entry, and leaves the ledger and bubbles alone |
| `Conversations.Converse` | frontend/src/conversations.js:61-93 | with both personas known, cleanup is reached whatever the reply; both units end idle and unpaired, the ledger is unchanged, and only the two units' bubbles may be gone |
| `Conversations.CompleteAsWritten` | frontend/src/conversations.js:56-93 | as written, cleanup is reached exactly when both ids are in the registry; otherwise nothing changes, so the units stay 'talking' and paired |
| `Conversations.Complete` | frontend/src/conversations.js:61-93 | corrected: on every path both units end 'idle' and leave the exclusion map; the ledger is untouched and only the two units' bubbles may be gone |
| `Conversations.CompleteAgreesWhenPersonasKnown` | frontend/src/conversations.js:56-93 | the corrected and as-written halves agree whenever both ids are in the registry |
| `Conversations.UnknownPersonaIsStuckAsWritten` | frontend/src/conversations.js:56-59 | an avatar id missing from the registry that meets "naval" leaves both talking and paired for good as written, so no later start with them goes through; the corrected half frees both |
| `Conversations.StrangerIsUnknown` | frontend/src/personas.js:151-153 | the registry has no persona "stranger" |
| `Conversations.ConversationRoundTrip` | frontend/src/conversations.js:42-93 | Begin followed by Complete restores the exclusion map, leaves both units idle, and leaves the pair's ledger entry at the start time |
| `Conversations.CooldownAfterConversation` | frontend/src/conversations.js:34-50 | after a conversation, the same pair, in either order, may start again exactly when more than 300000 ms have passed since it started |
| `Conversations.CompleteKeepsPaired` | frontend/src/conversations.js:92-93 | removing two partners keeps the exclusion map symmetric |
| `Conversations.FallbackAlternatesSpeakers` | frontend/src/conversations.js:67-127 | the fallback exchange between two different personas is shown on unit1, unit2, unit1, unit2 |
| `Conversations.CleanupBubbles` | frontend/src/conversations.js:228-235 | the sweep keeps a bubble exactly when `now` is not past its expiry, and keeps its value unchanged |
| `Conversations.UnexpiredIdempotent` | frontend/src/conversations.js:228-235 | a second sweep at the same time removes nothing more |
| `Conversations.BubbleLifetime` | frontend/src/conversations.js:228-235 | a bubble shown at time t survives a sweep at `now` exactly while `now <= t + 4000` |
| `DiscordChannels.QueueDiscordMessage` | backend/src/discord-channels.js:35-51 | a falsy channel gives false and leaves the queue alone; otherwise one entry with the channel, message and name is appended at the end, and the answer is true |
| `DiscordChannels.QueueWithoutName` | backend/src/discord-channels.js:35 | when the name is omitted, it is recorded as null |
| `DiscordChannels.GetPendingMessages` | backend/src/discord-channels.js:54-58 | a drain hands out the queue as it was and leaves it empty |
| `DiscordChannels.SecondDrainIsEmpty` | backend/src/discord-channels.js:54-58 | a second drain with nothing queued in between hands out nothing |
| `DiscordChannels.QueueAllAppendsAccepted` | backend/src/discord-channels.js:35-51 | a run of calls appends exactly the entries of the calls that named a channel, in call order |
| `DiscordChannels.DrainIsFirstInFirstOut` | backend/src/discord-channels.js:32-58 | starting from an empty queue, a drain hands out the accepted messages first-in first-out |
| `DiscordChannels.SpecialChannelsAccepted` | backend/src/discord-channels.js:28-50 | messages for the casual-conversation and AI-board channels are always queued |
| `DiscordChannels.EveryPersonaHasChannel` | backend/src/discord-channels.js:4-25 | every persona of the registry has a chat channel |
| `Isometric.ToScreen` | frontend/src/isometric.js:18-29 | with 128×64 tiles, grid (x, y) is drawn at ((x−y)·64, (x+y)·32) |
| `Isometric.ToGrid` | frontend/src/isometric.js:32-37 | the screen point is the projection of a grid point that lies inside the cell returned |
| `Isometric.ToGridFindsTile` | frontend/src/isometric.js:24-37 | every point inside tile (gx, gy) maps back to that tile |
| `Isometric.GridRoundTrip` | frontend/src/isometric.js:24-37 | `toGrid(toScreen(gx, gy)) == (gx, gy)` for all integer cells |
| `Isometric.ResolveField` | frontend/src/isometric.js:199-202 | an omitted data field takes the default; a present one, even empty, is kept, because the spread comes last |
| `Isometric.CreateBuilding` | frontend/src/isometric.js:188-208 | an unknown type gives null and no change; a known one appends exactly one entity at the end, at the given cell, with the type's definition, and with id, name and status defaulting to the type, the definition's name and 'idle' |
| `Isometric.EmptyStatusIsKept` | frontend/src/isometric.js:201-202 | a status given as the empty string is stored as it is, not replaced by 'idle' |
| `Isometric.NoDataTakesDefaults` | frontend/src/isometric.js:188-203 | with no `data` argument a known type gets id = the type, the definition's name and status 'idle' |
| `Isometric.CreateKeepsWellFormed` | frontend/src/isometric.js:188-208 | whatever the arguments, every entity stays of a known type and carries that type's definition |
| `Isometric.CreateAllAppendsKnown` | frontend/src/isometric.js:178-183 | a run of `createBuilding` calls keeps the existing entities and appends one entity per call of a known type, in call order; calls of an unknown type add nothing |
| `Isometric.CreateAllKeepsWellFormed` | frontend/src/isometric.js:178-183 | a run of `createBuilding` calls keeps every entity of a known type with that type's definition |
| `Isometric.InitialWorldContents` | frontend/src/isometric.js:177-183 | start-up creates six buildings in order, with the given ids, names and statuses |
| `Isometric.Merged` | frontend/src/isometric.js:327-329 | an entity takes the pushed status only when the push has a truthy status for its id; otherwise it is unchanged |
| `Isometric.MergeBuildingStatuses` | frontend/src/isometric.js:325-331 | the merge keeps the entity list's length and order; each entity takes its pushed status when one is truthy and is otherwise unchanged; no `buildings` field changes nothing; entities of known types with their definitions stay so |
| `Isometric.MergeIdempotent` | frontend/src/isometric.js:325-331 | applying the same push twice changes nothing more |
| `Isometric.Insert` | frontend/src/isometric.js:352-354 | one insertion step of the sort adds exactly the new entity to the multiset |
| `Isometric.InsertKeepsSorted` | frontend/src/isometric.js:352-354 | inserting into a depth-ordered list keeps it ordered |
| `Isometric.InsertAtDepth` | frontend/src/isometric.js:352-354 | the inserted entity goes before the entities of its own depth; the others keep their order |
| `Isometric.SortByDepth` | frontend/src/isometric.js:352-354 | the draw order is a permutation of the entities, non-decreasing in gridX+gridY, and entities of equal depth keep their relative order |
| `Chat.Initial` | frontend/src/chat.js:7-13 | a new panel has no persona, text mode, no recording, no chunks and no histories |
| `Chat.OpenChat` | frontend/src/chat.js:91-95 | looking the id up in the given registry (the program's is `Personas.PERSONAS`), an id the registry does not know changes nothing; a known id becomes the active persona, and histories, mode and recorder are left alone |
| `Chat.AddMessage` | frontend/src/chat.js:167-172 | with no active persona, nothing happens; otherwise exactly one message goes to the end of the active persona's history, and every other history is unchanged |
| `Chat.LeadingSpace` | frontend/src/chat.js:194 | the counted prefix is all white space and is followed by a non-white-space character or the end of the text |
| `Chat.TrailingSpace` | frontend/src/chat.js:194 | the counted suffix is all white space and is preceded by a non-white-space character or the start of the text |
| `Chat.TrimStart` | frontend/src/chat.js:194 | leading trim leaves a suffix that is empty or starts with a non-white-space character, and removes only white space |
| `Chat.TrimEnd` | frontend/src/chat.js:194 | trailing trim leaves a prefix that is empty or ends with a non-white-space character, and removes only white space |
| `Chat.Trim` | frontend/src/chat.js:194 | `trim` is never longer than the text, and its result neither starts nor ends with white space |
| `Chat.TrimIsSlice` | frontend/src/chat.js:194 | `trim` returns a contiguous part of the text that starts where the leading white space ends |
| `Chat.TrimDropsOnlyWhitespace` | frontend/src/chat.js:194 | what `trim` drops before and after that part is white space only |
| `Chat.TrimEmptyIffBlank` | frontend/src/chat.js:194 | `text.trim()` is empty exactly when every character is JavaScript white space |
| `Chat.TrimKeepsTightText` | frontend/src/chat.js:194 | a text with no white space at either end is left as it is by trimming |
| `Chat.SendMessage` | frontend/src/chat.js:193-197 | with no active persona, or a text that is empty or all white space, nothing happens; otherwise the untrimmed text is appended as the user's message to the active persona's history only |
| `Chat.PlayHello` | frontend/src/chat.js:260-263 | with no active persona nothing happens; otherwise the persona's greeting is appended as an assistant message to its history only |
| `Chat.ToggleMode` | frontend/src/chat.js:146-147 | the mode flips and nothing else changes |
| `Chat.ToggleTwiceRestores` | frontend/src/chat.js:146-147 | toggling twice restores the original state |
| `Chat.StartRecording` | frontend/src/chat.js:286-290 | with no microphone stream, or while recording, nothing happens; otherwise recording starts with no chunks |
| `Chat.ReceiveChunk` | frontend/src/chat.js:296 | a delivered chunk goes to the end of the collected chunks |
| `Chat.StopRecording` | frontend/src/chat.js:301-304 | when not recording, nothing happens; otherwise recording stops and the chunks are kept |
| `Chat.StartRecordingIdempotent` | frontend/src/chat.js:286-290 | a second press of push-to-talk changes nothing |
| `Chat.StopRecordingIdempotent` | frontend/src/chat.js:301-304 | a second release (mouseup, then mouseleave) changes nothing |
| `Chat.StartWhileRecordingKeepsChunks` | frontend/src/chat.js:287 | a start while recording does not discard the chunks collected so far |
| `Chat.ReceiveAllAppends` | frontend/src/chat.js:296 | a run of chunks is appended in order, and nothing else changes |
| `Chat.PushToTalkCollectsChunks` | frontend/src/chat.js:286-304 | one full press of push-to-talk leaves the recorder idle, holding exactly the chunks delivered during the press |
| `Chat.CloseChat` | frontend/src/chat.js:110-144 | closing always clears the active persona; a chatting avatar is handed back with status 'idle' and the reference cleared; histories are kept |
| `Chat.NoMessagesAfterClose` | frontend/src/chat.js:143-168 | after closing, writing a message is a no-op |
| `Chat.OpenThenAddGoesToOpenedPersona` | frontend/src/chat.js:91-172 | after opening a known persona, a message goes to the end of that persona's history, whichever persona was open before, and every other history is unchanged |
| `Chat.ReopenKeepsHistory` | frontend/src/chat.js:103-143 | closing and reopening a persona brings back its history unchanged |
| `Chat.AddAllAppendsInOrder` | frontend/src/chat.js:167-172 | a run of messages lands in the active persona's history in order, one entry each, after the earlier ones |

## Left out

- Network calls are not modelled. These are `fetch` to the conversation, Discord-post,
  chat, TTS, transcription and chat-log endpoints. The generation request's outcome is
  the `Reply` input. `sendMessage` is modelled up to the user's own message, and
  `playHello` up to its greeting (`Chat.PlayHello`). What follows their requests is
  not modelled: the assistant's answer and the greeting's audio.
- `simulateResponse` is left out. It adds a canned assistant message after a random
  delay of 500 to 1500 ms.
- `processRecording` is left out. After the transcription request it adds the
  transcribed text as a user message and the answer as an assistant message. A non-OK
  response adds no message. If the request throws (a network error or a body that is
  not JSON), it adds the user message "[Voice message]" and a simulated answer. With no
  active persona, reading its id throws. The fallback then adds nothing, because
  `addMessage` returns early. `simulateResponse` then throws a second TypeError on the
  missing persona, so the call rejects without adding any message.
- The join-conversation handlers of `initChat` are left out. They open a chat and add a
  'system' message; the model's `Role` has a `System` case for that message.
- `postToDiscord` and the transcript text are left out. Text formatting for Discord has
  no state to reason about.
- Timers are not modelled. The `setTimeout` pauses in the display loop follow nominal
  pacing: bubble i goes up at `start + 4500·i`. A late timer is not modelled.
- Interleaving is not modelled. `Complete` applies a conversation's whole display loop
  as one step, while the program lets other conversations and `cleanupBubbles` run
  between its turns. Conversations that run at once never share a unit: the guard at
  frontend/src/conversations.js:43 refuses them (`Conversations.TalkingUnitsAreExcluded`).
  So they write disjoint keys of the bubble map; what they share is the sweep of
  `cleanupBubbles` over that map. A bubble a unit had before its conversation is
  overwritten by its first turn and then deleted.
- Conversations.Complete: the completion callback `onComplete` is left out. It is
  modelled only as the `done` flag.
- The clock is not read. Each `Date.now()` is the parameter `now`. The two readings
  that `startConversation` takes, for the cooldown test and for the ledger entry, are
  taken to be equal. The Discord message
  id and the ISO timestamp are both renderings of `queuedAt`, so they are not stored
  separately.
- Floating point is not modelled. Grid coordinates and thresholds are exact reals, and
  `Math.sqrt` is replaced by squaring both sides, which is exact for a non-negative
  distance.
- Conversations.PairKeySymmetric: JavaScript's default sort compares UTF-16 code
  units. The model compares Unicode code points. The two orders agree on the ASCII ids
  the program uses.
- The merge of other state fields is left out. That is `Object.assign` over the state
  in `updateState`, together with its DOM writes. Only the building-status merge is
  modelled.
- Isometric.MergeBuildingStatuses: pushed status values are modelled as strings.
  Non-string truthy values are not modelled.
- Isometric.CreateBuilding: keys inherited from `Object.prototype` are not modelled.
  `BUILDING_DEFS` is a plain object, so a type such as "toString" finds the inherited
  function, and the program creates a building for it. The model treats only the seven
  listed types as known.
- Isometric.MergeBuildingStatuses: keys inherited from `Object.prototype` are not
  modelled. `newState.buildings` is a plain object, so an entity whose id is, say,
  "constructor" would take the inherited function as its status.
- Extra keys in `createBuilding`'s data are not modelled. Keys other than id, name and
  status would be copied into the entity's data by the spread. A data field given
  explicitly as `undefined` is not modelled either: the program stores `undefined` (the
  spread copies it over the default), while the model takes the default.
- Conversations.Generate: any successful response body is used as it is
  (frontend/src/conversations.js:114-116), including an empty list, so an
  `Answered([])` reply plays no turns and the fallback is not used.
- Conversations.Generate: a body holding a null entry in mid-list is covered by
  `Garbled`, which shows the readable prefix and then throws. A non-array body that is
  still iterable, such as a string, is not modelled separately.
- Rendering is left out. That covers the canvas, the speech-bubble drawing, the grid,
  the minimap, the camera zoom and smoothing, hit-testing against sprite sizes, and
  selection panels.
- The chat panel's DOM is left out. The microphone request's outcome is the
  `hasAudioStream` field of `Chat.ChatState`, and the media recorder's own
  start and stop are not modelled.
- Chat.CloseChat: the chat-log request that `closeChat` awaits before it clears the
  persona is left out. The model applies the close as one step.
- The backend server, `main.js` and the scripts are not part of this model.

## Findings

| source | as written | input that shows it | evidently intended | confidence | as-written member | corrected member |
|---|---|---|---|---|---|---|
| frontend/src/conversations.js:56-59 | the two persona lookups and the log line that reads `persona1.name` run before the `try`, so for an id the registry does not know the property read throws and cleanup at lines 89-93 is never reached | avatar "stranger" meets "naval" at time 1000000: both stay 'talking' and stay in `activeConversations`, so neither can ever start another conversation | an avatar without a persona should be released like any failed conversation | not executed | `Conversations.UnknownPersonaIsStuckAsWritten` | `Conversations.Complete` |
