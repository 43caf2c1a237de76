/**
 * The backend's outbound Discord queue: messages are queued for a channel and a
 * polling gateway drains them all at once.
 */
module DiscordChannels {
  import opened Wrappers
  import Personas

  /** Discord channel of each persona's own chat. */
  const PERSONA_CHANNELS: map<string, string> := map[
    "hormozi" := "1468445852803535142",
    "robbins" := "1468445860529701049",
    "kennedy" := "1468445853537796281",
    "abraham" := "1468445858570834123",
    "halbert" := "1468445856876466246",
    "goggins" := "1468447063288320001",
    "rosenberg" := "1468447064672440506",
    "lewis" := "1468447066727383205",
    "musk" := "1468447067436224649",
    "mises" := "1468447065733337321",
    "adams" := "1468453843292655716",
    "naval" := "1470965918925324511",
    "franklin" := "1470965942652637195",
    "munger" := "1470965962458009744",
    "aurelius" := "1470965981777231963",
    "feynman" := "1470966001477746765",
    "dalio" := "1470966022944329943"]

  const CASUAL_CONVERSATIONS_CHANNEL: string := "1470956181936668885"
  const AI_BOARD_CHANNEL: string := "1468445861821419694"

  /**
   * A queued message. `queuedAt` is the clock reading taken when it was queued; the
   * message's `id` is that reading in decimal and its `timestamp` the same reading
   * in ISO form. `personaName` None stands for `null`.
   */
  datatype PendingMessage = PendingMessage(
    queuedAt: int,
    channelId: string,
    message: string,
    personaName: Option<string>)

  /** The queue after a call, and the call's boolean answer. */
  datatype Queued = Queued(pending: seq<PendingMessage>, ok: bool)

  /** What a drain hands out, and the queue it leaves behind. */
  datatype Drained = Drained(messages: seq<PendingMessage>, pending: seq<PendingMessage>)

  /**
   * JavaScript truthiness of the channel argument: a missing (`undefined`/`null`) or
   * empty channel is falsy.
   */
  predicate Truthy(channelId: Option<string>) {
    channelId.Some? && |channelId.value| > 0
  }

  /**
   * `queueDiscordMessage`: with no channel, answer false and leave the queue alone;
   * otherwise append exactly one entry, carrying the arguments, and answer true.
   */
  function QueueDiscordMessage(
    pending: seq<PendingMessage>, channelId: Option<string>, message: string,
    personaName: Option<string>, now: int): (r: Queued)
    ensures !Truthy(channelId) ==> r == Queued(pending, false)
    ensures Truthy(channelId) ==>
      && r.ok
      && |r.pending| == |pending| + 1
      && r.pending[..|pending|] == pending
      && r.pending[|pending|] == PendingMessage(now, channelId.value, message, personaName)
  {
    if !Truthy(channelId) then Queued(pending, false)
    else Queued(pending + [PendingMessage(now, channelId.value, message, personaName)], true)
  }

  /** `queueDiscordMessage` called without its third argument: the name defaults to `null`. */
  function QueueWithoutName(pending: seq<PendingMessage>, channelId: Option<string>, message: string, now: int): (r: Queued)
    ensures r == QueueDiscordMessage(pending, channelId, message, None, now)
    ensures r.ok ==> r.pending[|r.pending| - 1].personaName == None
  {
    QueueDiscordMessage(pending, channelId, message, None, now)
  }

  /** `getPendingMessages`: hand out a copy of the queue, in insertion order, and empty it. */
  function GetPendingMessages(pending: seq<PendingMessage>): (r: Drained)
    ensures r.messages == pending
    ensures r.pending == []
  {
    Drained(pending, [])
  }

  /** Draining twice with nothing queued in between: the second drain hands out nothing. */
  lemma SecondDrainIsEmpty(pending: seq<PendingMessage>)
    ensures GetPendingMessages(GetPendingMessages(pending).pending).messages == []
  {
  }

  /** One call of `queueDiscordMessage`, with its arguments and the clock reading. */
  datatype Request = Request(channelId: Option<string>, message: string, personaName: Option<string>, at: int)

  /** Issue the requests one after the other. */
  function QueueAll(pending: seq<PendingMessage>, requests: seq<Request>): seq<PendingMessage>
    decreases |requests|
  {
    if |requests| == 0 then pending
    else
      var q := requests[0];
      QueueAll(QueueDiscordMessage(pending, q.channelId, q.message, q.personaName, q.at).pending, requests[1..])
  }

  /** Reference definition: the entries of the requests that name a channel, in request order. */
  function Accepted(requests: seq<Request>): seq<PendingMessage>
    decreases |requests|
  {
    if |requests| == 0 then []
    else
      var q := requests[0];
      (if Truthy(q.channelId) then [PendingMessage(q.at, q.channelId.value, q.message, q.personaName)] else [])
        + Accepted(requests[1..])
  }

  /** Queueing a run of requests appends exactly the accepted ones, in order. */
  lemma {:induction false} QueueAllAppendsAccepted(pending: seq<PendingMessage>, requests: seq<Request>)
    ensures QueueAll(pending, requests) == pending + Accepted(requests)
    decreases |requests|
  {
    if |requests| > 0 {
      var q := requests[0];
      var next := QueueDiscordMessage(pending, q.channelId, q.message, q.personaName, q.at).pending;
      QueueAllAppendsAccepted(next, requests[1..]);
      if Truthy(q.channelId) {
        assert next == pending + [PendingMessage(q.at, q.channelId.value, q.message, q.personaName)];
      }
    }
  }

  /** A drain after a run of requests on an empty queue hands out the accepted messages first-in first-out. */
  lemma DrainIsFirstInFirstOut(requests: seq<Request>)
    ensures GetPendingMessages(QueueAll([], requests)).messages == Accepted(requests)
  {
    QueueAllAppendsAccepted([], requests);
  }

  /** Messages for the casual-conversation and AI-board channels are always accepted. */
  lemma SpecialChannelsAccepted(pending: seq<PendingMessage>, message: string, personaName: Option<string>, now: int)
    ensures QueueDiscordMessage(pending, Some(CASUAL_CONVERSATIONS_CHANNEL), message, personaName, now).ok
    ensures QueueDiscordMessage(pending, Some(AI_BOARD_CHANNEL), message, personaName, now).ok
  {
  }

  /** Every persona of the registry has a chat channel. */
  lemma EveryPersonaHasChannel(i: nat)
    requires i < |Personas.PERSONAS|
    ensures Personas.PERSONAS[i].id in PERSONA_CHANNELS
  {
    Personas.RegistryIdsAreListed();
    assert Personas.PERSONAS[i].id == Personas.REGISTRY_IDS[i];
  }
}
