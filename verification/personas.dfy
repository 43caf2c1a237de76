/** The persona registry: a fixed table of personas and lookups by id. */
module Personas {
  import opened Wrappers

  /** One registry entry. `id` is the identity; the other fields are display and voice data. */
  datatype Persona = Persona(
    id: string,
    name: string,
    color: string,
    role: string,
    voiceId: string,
    greeting: string)

  /** The registry, in table order. */
  const PERSONAS: seq<Persona> := [
    Persona("hormozi", "Alex Hormozi", "#ff6600", "Business & Offers", "pNInz6obpgDQGcFmaJgB",
      "What's up! Let's talk about how to make your offer so good people feel stupid saying no."),
    Persona("robbins", "Tony Robbins", "#ff9900", "Peak Performance", "EXAVITQu4vr4xnSDxMaL",
      "Hey! Remember - it's not about resources, it's about resourcefulness!"),
    Persona("kennedy", "Dan Kennedy", "#cc6600", "Direct Response", "VR6AewLTigWG4xSOukaG",
      "Listen, most marketing is garbage. Let me show you what actually works."),
    Persona("abraham", "Jay Abraham", "#996633", "Strategy & Growth", "pNInz6obpgDQGcFmaJgB",
      "The biggest breakthroughs come from preeminence. Let me explain..."),
    Persona("halbert", "Gary Halbert", "#cc9933", "Copywriting Legend", "ErXwobaYiN019PkySvjV",
      "Grab a cup of coffee. I'm gonna teach you how to write words that sell."),
    Persona("goggins", "David Goggins", "#cc0000", "Mental Toughness", "VR6AewLTigWG4xSOukaG",
      "Stay hard! Your mind is trying to protect you, but you gotta callous it."),
    Persona("rosenberg", "Marshall Rosenberg", "#cc99ff", "Nonviolent Communication", "pNInz6obpgDQGcFmaJgB",
      "When we focus on feelings and needs, connection becomes natural."),
    Persona("naval", "Naval Ravikant", "#3399ff", "Wealth & Wisdom", "EXAVITQu4vr4xnSDxMaL",
      "Seek wealth, not money or status. Wealth is assets that earn while you sleep."),
    Persona("franklin", "Ben Franklin", "#ffcc00", "Founding Wisdom", "pNInz6obpgDQGcFmaJgB",
      "An investment in knowledge pays the best interest, my friend."),
    Persona("lewis", "C.S. Lewis", "#9966cc", "Faith & Reason", "VR6AewLTigWG4xSOukaG",
      "You can't go back and change the beginning, but you can start where you are."),
    Persona("musk", "Elon Musk", "#00cc66", "Innovation & Scale", "ErXwobaYiN019PkySvjV",
      "The thing about... um... first principles is you have to reason from the ground up."),
    Persona("mises", "Ludwig von Mises", "#6699cc", "Economics", "pNInz6obpgDQGcFmaJgB",
      "Human action is purposeful behavior. Let us examine the economics of your situation."),
    Persona("adams", "Scott Adams", "#ff6699", "Systems & Persuasion", "EXAVITQu4vr4xnSDxMaL",
      "Goals are for losers. Systems are for winners. Let me show you why."),
    Persona("munger", "Charlie Munger", "#8b4513", "Mental Models", "pNInz6obpgDQGcFmaJgB",
      "Invert, always invert. Tell me what would guarantee failure, and we'll avoid that."),
    Persona("aurelius", "Marcus Aurelius", "#4a4a4a", "Stoic Philosophy", "VR6AewLTigWG4xSOukaG",
      "You have power over your mind\U{2014}not outside events. Realize this, and you will find strength."),
    Persona("feynman", "Richard Feynman", "#00aaff", "First Principles", "EXAVITQu4vr4xnSDxMaL",
      "See, the thing is... if you can't explain it simply, you don't understand it well enough!"),
    Persona("dalio", "Ray Dalio", "#336699", "Principles & Systems", "pNInz6obpgDQGcFmaJgB",
      "Pain plus reflection equals progress. Let's diagnose what's really happening here.")
  ]

  /** The registry's ids, written out in table order. */
  const REGISTRY_IDS: seq<string> := [
    "hormozi", "robbins", "kennedy", "abraham", "halbert", "goggins", "rosenberg", "naval", "franklin",
    "lewis", "musk", "mises", "adams", "munger", "aurelius", "feynman", "dalio"]

  /** No two entries of `table` share an id. */
  ghost predicate DistinctIds(table: seq<Persona>) {
    forall i, j | 0 <= i < j < |table| :: table[i].id != table[j].id
  }

  /** Index of the first entry of `table` whose id is `id` (the search behind `Array.prototype.find`). */
  function FindIndex(table: seq<Persona>, id: string): (r: Option<nat>)
    ensures r.Some? ==> r.value < |table| && table[r.value].id == id
    ensures r.Some? ==> forall j :: 0 <= j < r.value ==> table[j].id != id
    ensures r.None? ==> forall j :: 0 <= j < |table| ==> table[j].id != id
    decreases |table|
  {
    if |table| == 0 then None
    else if table[0].id == id then Some(0)
    else
      match FindIndex(table[1..], id)
      case None => None
      case Some(k) => Some(k + 1)
  }

  /** The first entry of `table` whose id is `id`, or None (`undefined`) when there is none. */
  function Find(table: seq<Persona>, id: string): (r: Option<Persona>)
    ensures r.Some? ==> r.value.id == id && r.value in table
    ensures r.None? <==> forall j :: 0 <= j < |table| ==> table[j].id != id
  {
    match FindIndex(table, id)
    case None => None
    case Some(k) => Some(table[k])
  }

  /** `getPersona`: look an id up in the registry. */
  function GetPersona(id: string): (r: Option<Persona>)
    ensures r.Some? ==> r.value.id == id && r.value in PERSONAS
    ensures r.None? <==> forall j :: 0 <= j < |PERSONAS| ==> PERSONAS[j].id != id
  {
    Find(PERSONAS, id)
  }

  /** The ids of `table`, position by position. */
  function Ids(table: seq<Persona>): (r: seq<string>)
    ensures |r| == |table|
    ensures forall i :: 0 <= i < |table| ==> r[i] == table[i].id
  {
    seq(|table|, i requires 0 <= i < |table| => table[i].id)
  }

  /** `getPersonaIds`: the registry's ids in table order. */
  function GetPersonaIds(): (r: seq<string>)
    ensures |r| == |PERSONAS|
    ensures forall i :: 0 <= i < |PERSONAS| ==> r[i] == PERSONAS[i].id
  {
    Ids(PERSONAS)
  }

  /** Lookup answers with the first matching entry in table order. */
  lemma {:induction false} FindReturnsFirst(table: seq<Persona>, id: string, i: nat)
    requires i < |table| && table[i].id == id
    requires forall j :: 0 <= j < i ==> table[j].id != id
    ensures Find(table, id) == Some(table[i])
  {
  }

  /** In a table with distinct ids, looking up the i-th id gives back the i-th entry. */
  lemma FindOfIdIsEntry(table: seq<Persona>, i: nat)
    requires DistinctIds(table)
    requires i < |table|
    ensures Find(table, Ids(table)[i]) == Some(table[i])
  {
    var id := Ids(table)[i];
    forall j | 0 <= j < i
      ensures table[j].id != id
    {
      assert table[j].id != table[i].id;
    }
    FindReturnsFirst(table, id, i);
  }

  /** The registry's ids are the ones written out in REGISTRY_IDS. */
  lemma RegistryIdsAreListed()
    ensures GetPersonaIds() == REGISTRY_IDS
  {
  }

  /** An id outside REGISTRY_IDS is not in the registry. */
  lemma UnlistedIdIsUnknown(id: string)
    requires id !in REGISTRY_IDS
    ensures GetPersona(id).None?
  {
    RegistryIdsAreListed();
    ListedIffKnown(id);
  }

  /** The registry's ids are pairwise distinct. */
  lemma RegistryIdsDistinct()
    ensures DistinctIds(PERSONAS)
  {
    RegistryIdsAreListed();
    ListedIdsDistinct();
    forall i, j | 0 <= i < j < |PERSONAS|
      ensures PERSONAS[i].id != PERSONAS[j].id
    {
      assert PERSONAS[i].id == REGISTRY_IDS[i] && PERSONAS[j].id == REGISTRY_IDS[j];
    }
  }

  /** The ids written out in REGISTRY_IDS are pairwise distinct. */
  lemma ListedIdsDistinct()
    ensures forall i, j | 0 <= i < j < |REGISTRY_IDS| :: REGISTRY_IDS[i] != REGISTRY_IDS[j]
  {
  }

  /** `getPersona(getPersonaIds()[i])` is the registry's i-th entry. */
  lemma GetPersonaOfListedId(i: nat)
    requires i < |PERSONAS|
    ensures GetPersona(GetPersonaIds()[i]) == Some(PERSONAS[i])
  {
    RegistryIdsDistinct();
    FindOfIdIsEntry(PERSONAS, i);
  }

  /** An id is listed by `getPersonaIds` exactly when `getPersona` finds it. */
  lemma ListedIffKnown(id: string)
    ensures id in GetPersonaIds() <==> GetPersona(id).Some?
  {
    IdsIffFound(PERSONAS, id);
  }

  /** In any table, an id is among the ids exactly when lookup finds an entry for it. */
  lemma IdsIffFound(table: seq<Persona>, id: string)
    ensures id in Ids(table) <==> Find(table, id).Some?
  {
    var ids := Ids(table);
    if id in ids {
      var i :| 0 <= i < |ids| && ids[i] == id;
      assert table[i].id == id;
    }
    if Find(table, id).Some? {
      var k := FindIndex(table, id).value;
      assert ids[k] == id;
    }
  }
}
