/**
 * The persona encounter engine: proximity, the order-independent pair key and the
 * cooldown ledger, per-participant exclusion, the two halves of a conversation
 * (Begin, then Complete once the dialogue has played), and the speech-bubble map.
 *
 * The engine's module-level maps are one immutable `Engine` record; units are values
 * handed in and handed back with their new status; the clock is the `now` parameter.
 */
module Conversations {
  import Personas

  /** Minimum gap between two conversations of the same pair: five minutes, in ms. */
  const CONVERSATION_COOLDOWN: int := 5 * 60 * 1000

  /** How long a speech bubble stays up, and the pause after it, in ms. */
  const BUBBLE_MS: int := 4000
  const PAUSE_MS: int := 500

  /** The default bump distance, in grid cells. */
  const DEFAULT_THRESHOLD: real := 2.0

  const TALKING: string := "talking"
  const IDLE: string := "idle"

  /** A walking persona avatar, as far as the engine reads and writes it. */
  datatype Unit = Unit(id: string, gridX: real, gridY: real, color: string, status: string)

  /** One line of dialogue, attributed to a persona id. */
  datatype Turn = Turn(speaker: string, text: string)

  /** A displayed speech bubble; `expires` is an absolute time in ms. */
  datatype Bubble = Bubble(text: string, color: string, expires: int)

  /**
   * The engine's shared state:
   *  - `active`: unit id -> id of the unit it is talking to (`activeConversations`);
   *  - `lastTime`: pair key -> start time of that pair's last conversation (`lastConversationTime`);
   *  - `bubbles`: unit id -> its bubble (`speechBubbles`).
   */
  datatype Engine = Engine(
    active: map<string, string>,
    lastTime: map<string, int>,
    bubbles: map<string, Bubble>)

  const INITIAL: Engine := Engine(map[], map[], map[])

  /**
   * The result of a transition. `done` says whether the transition went through:
   * for Begin, that the conversation started; for Complete, that the cleanup (and the
   * completion callback) was reached.
   */
  datatype Step = Step(engine: Engine, unit1: Unit, unit2: Unit, done: bool)

  // ---------------------------------------------------------------------------
  // Proximity

  function SquaredDistance(a: Unit, b: Unit): real {
    (a.gridX - b.gridX) * (a.gridX - b.gridX) + (a.gridY - b.gridY) * (a.gridY - b.gridY)
  }

  /**
   * `checkProximity`: the Euclidean distance is strictly below `threshold`. Squaring
   * both sides is exact because the distance is never negative; a negative threshold
   * is never met. The test is strict, so a zero threshold is never met either, and two
   * units on the same spot are close for every positive threshold.
   */
  predicate CheckProximity(a: Unit, b: Unit, threshold: real)
    ensures CheckProximity(a, b, threshold) ==> 0.0 < threshold
  {
    assert 0.0 <= (a.gridX - b.gridX) * (a.gridX - b.gridX);
    assert 0.0 <= (a.gridY - b.gridY) * (a.gridY - b.gridY);
    0.0 <= threshold && SquaredDistance(a, b) < threshold * threshold
  }

  /** `checkProximity` called without its threshold: the default of 2 grid cells. */
  predicate CheckProximityDefault(a: Unit, b: Unit)
    ensures CheckProximityDefault(a, b) <==> SquaredDistance(a, b) < 4.0
  {
    CheckProximity(a, b, DEFAULT_THRESHOLD)
  }

  lemma PositiveProduct(x: real, y: real)
    requires 0.0 < x && 0.0 < y
    ensures 0.0 < x * y
  {
  }

  lemma SameSpotIsDistanceZero(a: Unit, b: Unit)
    ensures a.gridX == b.gridX && a.gridY == b.gridY ==> SquaredDistance(a, b) == 0.0
  {
    if a.gridX == b.gridX && a.gridY == b.gridY {
      ZeroSquare(a.gridX - b.gridX);
      ZeroSquare(a.gridY - b.gridY);
    }
  }

  lemma ZeroSquare(x: real)
    requires x == 0.0
    ensures x * x == 0.0
  {
  }


  /** For any `dist` that is the Euclidean distance of the two units, the test is `dist < threshold`. */
  lemma ProximityIsDistanceBelowThreshold(a: Unit, b: Unit, threshold: real, dist: real)
    requires 0.0 <= dist && dist * dist == SquaredDistance(a, b)
    ensures CheckProximity(a, b, threshold) <==> dist < threshold
  {
    if 0.0 <= threshold {
      if dist < threshold {
        PositiveProduct(threshold - dist, threshold + dist);
        assert threshold * threshold - dist * dist == (threshold - dist) * (threshold + dist);
      } else {
        assert threshold * threshold <= threshold * dist;
        assert threshold * dist <= dist * dist;
      }
    }
  }

  /** Two units on the same spot are close exactly when the threshold is positive. */
  lemma SameSpotIsClose(a: Unit, b: Unit, threshold: real)
    requires a.gridX == b.gridX && a.gridY == b.gridY
    ensures CheckProximity(a, b, threshold) <==> 0.0 < threshold
  {
    SameSpotIsDistanceZero(a, b);
    ProximityIsDistanceBelowThreshold(a, b, threshold, 0.0);
  }

  /** Swapping the two units does not change the answer. */
  lemma ProximitySymmetric(a: Unit, b: Unit, threshold: real)
    ensures CheckProximity(a, b, threshold) == CheckProximity(b, a, threshold)
  {
    assert (a.gridX - b.gridX) * (a.gridX - b.gridX) == (b.gridX - a.gridX) * (b.gridX - a.gridX);
    assert (a.gridY - b.gridY) * (a.gridY - b.gridY) == (b.gridY - a.gridY) * (b.gridY - a.gridY);
  }

  // ---------------------------------------------------------------------------
  // Pair key

  /** Strict lexicographic order on strings, the order of JavaScript's default `sort`. */
  predicate Before(a: string, b: string)
    decreases |a|
  {
    if |a| == 0 then |b| > 0
    else |b| > 0 && (a[0] < b[0] || (a[0] == b[0] && Before(a[1..], b[1..])))
  }

  lemma {:induction false} BeforeAsymmetric(a: string, b: string)
    ensures !(Before(a, b) && Before(b, a))
    decreases |a|
  {
    if |a| > 0 && |b| > 0 && a[0] == b[0] {
      BeforeAsymmetric(a[1..], b[1..]);
    }
  }

  lemma {:induction false} BeforeTotal(a: string, b: string)
    ensures a == b || Before(a, b) || Before(b, a)
    decreases |a|
  {
    if |a| > 0 && |b| > 0 && a[0] == b[0] {
      BeforeTotal(a[1..], b[1..]);
      if a[1..] == b[1..] {
        assert a == [a[0]] + a[1..] && b == [b[0]] + b[1..];
      }
    }
  }

  /** `getPairKey`: the two ids in sorted order, joined by '-'. */
  function PairKey(id1: string, id2: string): (r: string)
    ensures r == id1 + "-" + id2 || r == id2 + "-" + id1
    ensures Before(id1, id2) ==> r == id1 + "-" + id2
    ensures Before(id2, id1) ==> r == id2 + "-" + id1
  {
    BeforeAsymmetric(id1, id2);
    if Before(id2, id1) then id2 + "-" + id1 else id1 + "-" + id2
  }

  /** The key does not depend on the order of the two ids. */
  lemma PairKeySymmetric(id1: string, id2: string)
    ensures PairKey(id1, id2) == PairKey(id2, id1)
  {
    BeforeAsymmetric(id1, id2);
    BeforeTotal(id1, id2);
  }

  /** Position of the first '-' in `s`, or `|s|` when there is none. */
  function FirstDash(s: string): nat
    decreases |s|
  {
    if |s| == 0 then 0 else if s[0] == '-' then 0 else 1 + FirstDash(s[1..])
  }

  lemma {:induction false} FirstDashOfJoin(x: string, y: string)
    requires '-' !in x
    ensures FirstDash(x + "-" + y) == |x|
    decreases |x|
  {
    if |x| > 0 {
      assert (x + "-" + y)[1..] == x[1..] + "-" + y;
      FirstDashOfJoin(x[1..], y);
    }
  }

  /** `x + "-" + y` can be split back when `x` holds no '-'. */
  lemma DashJoinInjective(x: string, y: string, u: string, v: string)
    requires '-' !in x && '-' !in u
    requires x + "-" + y == u + "-" + v
    ensures x == u && y == v
  {
    var s := x + "-" + y;
    FirstDashOfJoin(x, y);
    FirstDashOfJoin(u, v);
    assert x == s[..|x|] == u;
    assert y == s[|x| + 1..] == v;
  }

  /** For ids without '-', two pairs share a key exactly when they are the same unordered pair. */
  lemma PairKeyIdentifiesPair(a: string, b: string, c: string, d: string)
    requires '-' !in a && '-' !in b && '-' !in c && '-' !in d
    ensures PairKey(a, b) == PairKey(c, d) <==> {a, b} == {c, d}
  {
    PairKeySymmetric(a, b);
    PairKeySymmetric(c, d);
    if PairKey(a, b) == PairKey(c, d) {
      var x, y := if Before(b, a) then b else a, if Before(b, a) then a else b;
      var u, v := if Before(d, c) then d else c, if Before(d, c) then c else d;
      assert PairKey(a, b) == x + "-" + y;
      assert PairKey(c, d) == u + "-" + v;
      DashJoinInjective(x, y, u, v);
    }
  }

  /** The registry's ids contain no '-', so on registry personas the ledger keys one entry per pair. */
  lemma RegistryIdsDashFree(i: nat)
    requires i < |Personas.PERSONAS|
    ensures '-' !in Personas.PERSONAS[i].id
  {
    Personas.RegistryIdsAreListed();
    var id := Personas.REGISTRY_IDS[i];
    assert Personas.PERSONAS[i].id == id;
    ListedIdsDashFree(i);
  }

  /** The same fact on the id list alone, so the proof does not unfold the whole `PERSONAS` literal. */
  lemma ListedIdsDashFree(i: nat)
    requires i < |Personas.REGISTRY_IDS|
    ensures '-' !in Personas.REGISTRY_IDS[i]
  {
  }

  // ---------------------------------------------------------------------------
  // Cooldown ledger

  /** The pair's last conversation time; a missing entry reads as time 0. */
  function LastTime(e: Engine, id1: string, id2: string): int {
    var key := PairKey(id1, id2);
    if key in e.lastTime then e.lastTime[key] else 0
  }

  /**
   * `canConverse`: strictly more than the cooldown has passed since the pair's last
   * conversation. A pair with no ledger entry is measured from time 0.
   */
  predicate CanConverse(e: Engine, id1: string, id2: string, now: int)
    ensures PairKey(id1, id2) !in e.lastTime ==> (CanConverse(e, id1, id2, now) <==> now > CONVERSATION_COOLDOWN)
    ensures PairKey(id1, id2) in e.lastTime ==>
      (CanConverse(e, id1, id2, now) <==> now > e.lastTime[PairKey(id1, id2)] + 300000)
  {
    now - LastTime(e, id1, id2) > CONVERSATION_COOLDOWN
  }

  /** The cooldown answer does not depend on the order of the ids. */
  lemma CanConverseSymmetric(e: Engine, id1: string, id2: string, now: int)
    ensures CanConverse(e, id1, id2, now) == CanConverse(e, id2, id1, now)
  {
    PairKeySymmetric(id1, id2);
  }

  /** Once a pair may talk, it may talk at every later time until the ledger changes. */
  lemma CanConverseStaysTrue(e: Engine, id1: string, id2: string, now: int, later: int)
    requires CanConverse(e, id1, id2, now) && now <= later
    ensures CanConverse(e, id1, id2, later)
  {
  }

  // ---------------------------------------------------------------------------
  // Exclusion map

  /** Every unit in a conversation points at a partner that points back. */
  ghost predicate Paired(active: map<string, string>) {
    forall k | k in active :: active[k] in active && active[active[k]] == k
  }

  // ---------------------------------------------------------------------------
  // Begin: the synchronous start of `startConversation`

  /**
   * Start a conversation between two units at time `now`. Nothing changes when the
   * pair is still cooling down or either unit is already in a conversation; otherwise
   * the units are paired in `active`, the pair's ledger entry is set to `now` and
   * both units start talking.
   */
  function Begin(e: Engine, u1: Unit, u2: Unit, now: int): (r: Step)
    ensures r.done <==> CanConverse(e, u1.id, u2.id, now) && u1.id !in e.active && u2.id !in e.active
    ensures !r.done ==> r == Step(e, u1, u2, false)
    ensures r.done ==>
      && r.engine.active.Keys == e.active.Keys + {u1.id, u2.id}
      && r.engine.active[u1.id] == u2.id
      && r.engine.active[u2.id] == u1.id
      && (forall k :: k in e.active ==> r.engine.active[k] == e.active[k])
    ensures r.done ==>
      && r.engine.lastTime.Keys == e.lastTime.Keys + {PairKey(u1.id, u2.id)}
      && r.engine.lastTime[PairKey(u1.id, u2.id)] == now
      && (forall k :: k in e.lastTime && k != PairKey(u1.id, u2.id) ==> r.engine.lastTime[k] == e.lastTime[k])
    ensures r.done ==> r.engine.bubbles == e.bubbles
    ensures r.done ==> r.unit1 == u1.(status := TALKING) && r.unit2 == u2.(status := TALKING)
  {
    if !CanConverse(e, u1.id, u2.id, now) then Step(e, u1, u2, false)
    else if u1.id in e.active || u2.id in e.active then Step(e, u1, u2, false)
    else
      var active := e.active[u1.id := u2.id][u2.id := u1.id];
      var lastTime := e.lastTime[PairKey(u1.id, u2.id) := now];
      Step(Engine(active, lastTime, e.bubbles), u1.(status := TALKING), u2.(status := TALKING), true)
  }

  /** Begin keeps the exclusion map paired. */
  lemma BeginKeepsPaired(e: Engine, u1: Unit, u2: Unit, now: int)
    requires Paired(e.active)
    ensures Paired(Begin(e, u1, u2, now).engine.active)
  {
    var r := Begin(e, u1, u2, now);
    if r.done {
      var a := r.engine.active;
      forall k | k in a
        ensures a[k] in a && a[a[k]] == k
      {
        if k != u1.id && k != u2.id {
          assert e.active[k] in e.active;
        }
      }
    }
  }

  /** While a unit is in a conversation, no Begin involving it goes through. */
  lemma TalkingUnitsAreExcluded(e: Engine, u1: Unit, u2: Unit, now: int, w1: Unit, w2: Unit, later: int)
    requires Begin(e, u1, u2, now).done
    requires w1.id in {u1.id, u2.id} || w2.id in {u1.id, u2.id}
    ensures !Begin(Begin(e, u1, u2, now).engine, w1, w2, later).done
  {
  }

  // ---------------------------------------------------------------------------
  // Dialogue content

  /**
   * What the generation request answered:
   *  - `Answered(turns)`: a successful response whose body is a list of turns;
   *  - `Garbled(readable)`: a successful response whose body is not a list of turns, so
   *    displaying it throws after the turns in `readable` (none when the body is not a list);
   *  - `Failed`: a network error, a non-success status, or a body that is not JSON.
   */
  datatype Reply = Answered(turns: seq<Turn>) | Garbled(readable: seq<Turn>) | Failed

  /** The dialogue the display loop walks through, and whether that loop throws at its end. */
  datatype Script = Script(turns: seq<Turn>, throws: bool)

  /** The scripted exchange used when generation fails: four turns, the first persona opening. */
  function Fallback(p1: Personas.Persona, p2: Personas.Persona): (r: seq<Turn>)
    ensures |r| == 4
    ensures forall i :: 0 <= i < 4 ==> r[i].speaker == (if i % 2 == 0 then p1.id else p2.id)
    ensures forall i :: 0 <= i < 4 ==> |r[i].text| > 0
  {
    [ Turn(p1.id, "Hello " + p2.name + "! Interesting running into you here."),
      Turn(p2.id, "Indeed, " + p1.name + ". Always good to exchange ideas."),
      Turn(p1.id, "Perhaps we should discuss our approaches sometime."),
      Turn(p2.id, "I'd like that. Until next time.") ]
  }

  /**
   * `generateConversation`: it never fails. A failed request becomes the fallback
   * exchange; an answered one is used as it came, even when it holds no turns.
   */
  function Generate(reply: Reply, p1: Personas.Persona, p2: Personas.Persona): (r: Script)
    ensures reply.Failed? ==> r == Script(Fallback(p1, p2), false)
    ensures reply.Answered? ==> r == Script(reply.turns, false)
    ensures reply.Garbled? ==> r == Script(reply.readable, true)
  {
    match reply
    case Answered(turns) => Script(turns, false)
    case Garbled(readable) => Script(readable, true)
    case Failed => Script(Fallback(p1, p2), false)
  }

  // ---------------------------------------------------------------------------
  // Speaker attribution and bubbles

  /** The unit a turn is shown on: the first unit when the turn names the first persona, else the second. */
  function Speaker(t: Turn, p1Id: string, u1: Unit, u2: Unit): (r: Unit)
    ensures r == u1 || r == u2
    ensures t.speaker == p1Id ==> r == u1
    ensures t.speaker != p1Id ==> r == u2
  {
    if t.speaker == p1Id then u1 else u2
  }

  /** Put `speaker`'s bubble up at `now`, replacing any bubble that unit already had. */
  function ShowBubble(bubbles: map<string, Bubble>, speaker: Unit, text: string, now: int): (r: map<string, Bubble>)
    ensures r.Keys == bubbles.Keys + {speaker.id}
    ensures r[speaker.id] == Bubble(text, speaker.color, now + BUBBLE_MS)
    ensures forall k :: k in bubbles && k != speaker.id ==> r[k] == bubbles[k]
  {
    bubbles[speaker.id := Bubble(text, speaker.color, now + BUBBLE_MS)]
  }

  /** The bubble shown for one turn, on the unit it was attributed to. */
  datatype Shown = Shown(unitId: string, bubble: Bubble)

  /** The bubble map after the display loop, and the bubbles it showed, in order. */
  datatype Playback = Playback(bubbles: map<string, Bubble>, shown: seq<Shown>)

  /** The ids of the units that the turns are shown on. */
  ghost function SpeakerIds(turns: seq<Turn>, p1Id: string, u1: Unit, u2: Unit): set<string> {
    set i | 0 <= i < |turns| :: Speaker(turns[i], p1Id, u1, u2).id
  }

  /** The speakers of a non-empty script are the first turn's speaker and those of the rest. */
  lemma SpeakerIdsCons(turns: seq<Turn>, p1Id: string, u1: Unit, u2: Unit)
    requires |turns| > 0
    ensures SpeakerIds(turns, p1Id, u1, u2) == {Speaker(turns[0], p1Id, u1, u2).id} + SpeakerIds(turns[1..], p1Id, u1, u2)
  {
    var sp := Speaker(turns[0], p1Id, u1, u2);
    forall x | x in SpeakerIds(turns, p1Id, u1, u2)
      ensures x in {sp.id} + SpeakerIds(turns[1..], p1Id, u1, u2)
    {
      var i :| 0 <= i < |turns| && Speaker(turns[i], p1Id, u1, u2).id == x;
      if i > 0 {
        assert turns[1..][i - 1] == turns[i];
      }
    }
    forall x | x in SpeakerIds(turns[1..], p1Id, u1, u2)
      ensures x in SpeakerIds(turns, p1Id, u1, u2)
    {
      var i :| 0 <= i < |turns[1..]| && Speaker(turns[1..][i], p1Id, u1, u2).id == x;
      assert turns[1..][i] == turns[i + 1];
    }
  }

  /**
   * The display loop: each turn's bubble goes up on its speaker's unit, stays for
   * BUBBLE_MS, is taken down, and PAUSE_MS pass before the next. `start` is the time
   * the first bubble goes up; the timers are taken to fire on time.
   */
  function Play(bubbles: map<string, Bubble>, turns: seq<Turn>, p1Id: string, u1: Unit, u2: Unit, start: int): (r: Playback)
    ensures |r.shown| == |turns|
    ensures forall i :: 0 <= i < |turns| ==>
      var sp := Speaker(turns[i], p1Id, u1, u2);
      r.shown[i] == Shown(sp.id, Bubble(turns[i].text, sp.color, start + i * (BUBBLE_MS + PAUSE_MS) + BUBBLE_MS))
    ensures r.bubbles == bubbles - SpeakerIds(turns, p1Id, u1, u2)
    decreases |turns|
  {
    if |turns| == 0 then Playback(bubbles, [])
    else
      var sp := Speaker(turns[0], p1Id, u1, u2);
      var up := ShowBubble(bubbles, sp, turns[0].text, start);
      var rest := Play(up - {sp.id}, turns[1..], p1Id, u1, u2, start + BUBBLE_MS + PAUSE_MS);
      SpeakerIdsCons(turns, p1Id, u1, u2);
      Playback(rest.bubbles, [Shown(sp.id, up[sp.id])] + rest.shown)
  }

  // ---------------------------------------------------------------------------
  // Complete: the asynchronous remainder of `startConversation`

  /** Release both units: they stop talking and leave the exclusion map. */
  function Release(e: Engine, u1: Unit, u2: Unit): (r: Step)
    ensures r.done
    ensures r.engine.active.Keys == e.active.Keys - {u1.id, u2.id}
    ensures forall k :: k in r.engine.active ==> r.engine.active[k] == e.active[k]
    ensures r.engine.lastTime == e.lastTime && r.engine.bubbles == e.bubbles
    ensures r.unit1 == u1.(status := IDLE) && r.unit2 == u2.(status := IDLE)
  {
    Step(e.(active := e.active - {u1.id, u2.id}), u1.(status := IDLE), u2.(status := IDLE), true)
  }

  /** Look both personas up, then generate and play the dialogue (the part under the try). */
  function Converse(e: Engine, u1: Unit, u2: Unit, p1: Personas.Persona, p2: Personas.Persona, reply: Reply, start: int): (r: Step)
    ensures r.done
    ensures r.unit1 == u1.(status := IDLE) && r.unit2 == u2.(status := IDLE)
    ensures r.engine.active.Keys == e.active.Keys - {u1.id, u2.id}
    ensures forall k :: k in r.engine.active ==> r.engine.active[k] == e.active[k]
    ensures r.engine.lastTime == e.lastTime
    ensures forall k :: k in r.engine.bubbles ==> k in e.bubbles && r.engine.bubbles[k] == e.bubbles[k]
    ensures forall k :: k in e.bubbles && k != u1.id && k != u2.id ==> k in r.engine.bubbles
  {
    var script := Generate(reply, p1, p2);
    var played := Play(e.bubbles, script.turns, p1.id, u1, u2, start);
    assert SpeakerIds(script.turns, p1.id, u1, u2) <= {u1.id, u2.id};
    Release(e.(bubbles := played.bubbles), u1, u2)
  }

  /**
   * The rest of `startConversation` exactly as written: the two persona lookups and the
   * log line that reads `persona1.name` sit before the try, so an id the registry does
   * not know throws there, and nothing after it runs: the units keep talking, they stay
   * in the exclusion map and the completion callback is never called.
   */
  function CompleteAsWritten(registry: seq<Personas.Persona>, e: Engine, u1: Unit, u2: Unit, reply: Reply, start: int): (r: Step)
    ensures r.done <==> Personas.Find(registry, u1.id).Some? && Personas.Find(registry, u2.id).Some?
    ensures !r.done ==> r == Step(e, u1, u2, false)
  {
    var p1 := Personas.Find(registry, u1.id);
    var p2 := Personas.Find(registry, u2.id);
    if p1.None? || p2.None? then Step(e, u1, u2, false)
    else Converse(e, u1, u2, p1.value, p2.value, reply, start)
  }

  /**
   * The rest of `startConversation` with every failure caught: a failed lookup skips
   * the dialogue, and the units are released on every path. Whatever the reply, both
   * units end idle and out of the exclusion map, the ledger is untouched, and only the
   * two units' bubbles can have been taken down.
   */
  function Complete(registry: seq<Personas.Persona>, e: Engine, u1: Unit, u2: Unit, reply: Reply, start: int): (r: Step)
    ensures r.done
    ensures r.unit1 == u1.(status := IDLE) && r.unit2 == u2.(status := IDLE)
    ensures r.engine.active.Keys == e.active.Keys - {u1.id, u2.id}
    ensures forall k :: k in r.engine.active ==> r.engine.active[k] == e.active[k]
    ensures r.engine.lastTime == e.lastTime
    ensures forall k :: k in r.engine.bubbles ==> k in e.bubbles && r.engine.bubbles[k] == e.bubbles[k]
    ensures forall k :: k in e.bubbles && k != u1.id && k != u2.id ==> k in r.engine.bubbles
  {
    var p1 := Personas.Find(registry, u1.id);
    var p2 := Personas.Find(registry, u2.id);
    if p1.None? || p2.None? then Release(e, u1, u2)
    else Converse(e, u1, u2, p1.value, p2.value, reply, start)
  }

  /** The two versions differ only when a lookup fails. */
  lemma CompleteAgreesWhenPersonasKnown(registry: seq<Personas.Persona>, e: Engine, u1: Unit, u2: Unit, reply: Reply, start: int)
    requires Personas.Find(registry, u1.id).Some? && Personas.Find(registry, u2.id).Some?
    ensures CompleteAsWritten(registry, e, u1, u2, reply, start) == Complete(registry, e, u1, u2, reply, start)
  {
  }

  /**
   * A unit whose id the registry does not know bumps into "naval": as written both stay
   * talking and paired for good, so no later Begin with either unit ever goes through;
   * with the failure caught both units are idle and free again.
   */
  lemma UnknownPersonaIsStuckAsWritten(registry: seq<Personas.Persona>, reply: Reply, start: int)
    requires Personas.Find(registry, "stranger").None?
    ensures
      var u1 := Unit("stranger", 0.0, 0.0, "#ffffff", IDLE);
      var u2 := Unit("naval", 1.0, 0.0, "#3399ff", IDLE);
      var b := Begin(INITIAL, u1, u2, 1000000);
      var stuck := CompleteAsWritten(registry, b.engine, b.unit1, b.unit2, reply, start);
      var fixed := Complete(registry, b.engine, b.unit1, b.unit2, reply, start);
      && b.done
      && !stuck.done
      && stuck.unit1.status == TALKING && stuck.unit2.status == TALKING
      && "stranger" in stuck.engine.active && "naval" in stuck.engine.active
      && (forall w: Unit, t: int :: !Begin(stuck.engine, w, stuck.unit2, t).done)
      && fixed.done
      && fixed.unit1.status == IDLE && fixed.unit2.status == IDLE
      && fixed.engine.active == map[]
  {
    var u1 := Unit("stranger", 0.0, 0.0, "#ffffff", IDLE);
    var u2 := Unit("naval", 1.0, 0.0, "#3399ff", IDLE);
    var b := Begin(INITIAL, u1, u2, 1000000);
    assert b.engine.active.Keys == {"stranger", "naval"};
    var fixed := Complete(registry, b.engine, b.unit1, b.unit2, reply, start);
    assert fixed.engine.active.Keys == {};
  }

  /** The registry does not know the id "stranger", so the case above happens in the program. */
  lemma StrangerIsUnknown()
    ensures Personas.Find(Personas.PERSONAS, "stranger").None?
  {
    Personas.UnlistedIdIsUnknown("stranger");
  }

  /** Begin followed by Complete puts the exclusion map back as it was and leaves the ledger entry at `now`. */
  lemma ConversationRoundTrip(registry: seq<Personas.Persona>, e: Engine, u1: Unit, u2: Unit, now: int, reply: Reply, start: int)
    requires Begin(e, u1, u2, now).done
    ensures
      var b := Begin(e, u1, u2, now);
      var c := Complete(registry, b.engine, b.unit1, b.unit2, reply, start);
      && c.engine.active == e.active
      && c.engine.lastTime[PairKey(u1.id, u2.id)] == now
      && c.unit1 == u1.(status := IDLE) && c.unit2 == u2.(status := IDLE)
  {
    var b := Begin(e, u1, u2, now);
    var c := Complete(registry, b.engine, b.unit1, b.unit2, reply, start);
    assert c.engine.active.Keys == e.active.Keys;
  }

  /**
   * After a conversation has run its course, the same pair (in either order) may start
   * again exactly when strictly more than the cooldown has passed since it started.
   */
  lemma CooldownAfterConversation(
    registry: seq<Personas.Persona>, e: Engine, u1: Unit, u2: Unit, now: int, reply: Reply, start: int,
    w1: Unit, w2: Unit, later: int)
    requires Begin(e, u1, u2, now).done
    requires (w1.id == u1.id && w2.id == u2.id) || (w1.id == u2.id && w2.id == u1.id)
    ensures
      var b := Begin(e, u1, u2, now);
      var c := Complete(registry, b.engine, b.unit1, b.unit2, reply, start);
      Begin(c.engine, w1, w2, later).done <==> later - now > CONVERSATION_COOLDOWN
  {
    var b := Begin(e, u1, u2, now);
    var c := Complete(registry, b.engine, b.unit1, b.unit2, reply, start);
    PairKeySymmetric(u1.id, u2.id);
    assert PairKey(w1.id, w2.id) == PairKey(u1.id, u2.id);
    assert LastTime(c.engine, w1.id, w2.id) == now;
  }

  /** Complete keeps the exclusion map paired when the two units were paired with each other. */
  lemma CompleteKeepsPaired(registry: seq<Personas.Persona>, e: Engine, u1: Unit, u2: Unit, reply: Reply, start: int)
    requires Paired(e.active)
    requires u1.id in e.active && e.active[u1.id] == u2.id
    ensures Paired(Complete(registry, e, u1, u2, reply, start).engine.active)
  {
    var a := Complete(registry, e, u1, u2, reply, start).engine.active;
    forall k | k in a
      ensures a[k] in a && a[a[k]] == k
    {
      assert e.active[k] in e.active && e.active[e.active[k]] == k;
    }
  }

  /** With the fallback exchange between two different units, the turns alternate first, second, first, second. */
  lemma FallbackAlternatesSpeakers(p1: Personas.Persona, p2: Personas.Persona, u1: Unit, u2: Unit, i: nat)
    requires p1.id != p2.id && i < 4
    ensures Speaker(Fallback(p1, p2)[i], p1.id, u1, u2) == if i % 2 == 0 then u1 else u2
  {
  }

  // ---------------------------------------------------------------------------
  // Bubble expiry

  predicate Expired(b: Bubble, now: int) {
    now > b.expires
  }

  /** Reference definition of the sweep: keep exactly the bubbles that have not expired. */
  function Unexpired(bubbles: map<string, Bubble>, now: int): map<string, Bubble> {
    map id | id in bubbles && !Expired(bubbles[id], now) :: bubbles[id]
  }

  /** `cleanupBubbles`: delete every expired bubble, one key at a time. */
  method CleanupBubbles(bubbles: map<string, Bubble>, now: int) returns (r: map<string, Bubble>)
    ensures forall id :: id in r <==> id in bubbles && !Expired(bubbles[id], now)
    ensures forall id :: id in r ==> r[id] == bubbles[id]
    ensures r == Unexpired(bubbles, now)
  {
    r := bubbles;
    var todo := bubbles.Keys;
    while todo != {}
      invariant todo <= bubbles.Keys
      invariant forall id :: id in r <==> id in bubbles && (id in todo || !Expired(bubbles[id], now))
      invariant forall id :: id in r ==> r[id] == bubbles[id]
      decreases todo
    {
      var id :| id in todo;
      if Expired(bubbles[id], now) {
        r := r - {id};
      }
      todo := todo - {id};
    }
  }

  /** Sweeping twice at the same time removes nothing more. */
  lemma UnexpiredIdempotent(bubbles: map<string, Bubble>, now: int)
    ensures Unexpired(Unexpired(bubbles, now), now) == Unexpired(bubbles, now)
  {
  }

  /** A bubble shown at `shownAt` survives a sweep at `now` exactly while `now <= shownAt + BUBBLE_MS`. */
  lemma BubbleLifetime(bubbles: map<string, Bubble>, speaker: Unit, text: string, shownAt: int, now: int)
    ensures speaker.id in Unexpired(ShowBubble(bubbles, speaker, text, shownAt), now) <==> now <= shownAt + BUBBLE_MS
  {
  }
}
