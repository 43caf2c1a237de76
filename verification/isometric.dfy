/**
 * The isometric world's bookkeeping: the grid/screen projection, building creation,
 * the merge of building statuses pushed by the backend, and the back-to-front order
 * in which entities are drawn.
 */
module Isometric {
  import opened Wrappers

  /** Tile size: the base of the isometric diamond, in pixels. */
  const TILE_WIDTH: int := 128
  const TILE_HEIGHT: int := 64

  datatype ScreenPoint = ScreenPoint(x: real, y: real)
  datatype GridCell = GridCell(x: int, y: int)

  // ---------------------------------------------------------------------------
  // Projection

  /** `ISO.toScreen`. Grid coordinates may be fractional (a point inside a tile). */
  function ToScreen(gridX: real, gridY: real): (r: ScreenPoint)
    ensures r.x == (gridX - gridY) * 64.0 && r.y == (gridX + gridY) * 32.0
  {
    ScreenPoint(
      (gridX - gridY) * (TILE_WIDTH as real / 2.0),
      (gridX + gridY) * (TILE_HEIGHT as real / 2.0))
  }

  /** `ISO.toGrid`: the tile a screen point falls in (`Math.floor` of the inverse projection). */
  function ToGrid(screenX: real, screenY: real): (r: GridCell)
    ensures
      var gx := (screenX / 64.0 + screenY / 32.0) / 2.0;
      var gy := (screenY / 32.0 - screenX / 64.0) / 2.0;
      && ToScreen(gx, gy) == ScreenPoint(screenX, screenY)
      && r.x as real <= gx < r.x as real + 1.0
      && r.y as real <= gy < r.y as real + 1.0
  {
    var halfW := TILE_WIDTH as real / 2.0;
    var halfH := TILE_HEIGHT as real / 2.0;
    GridCell(
      ((screenX / halfW + screenY / halfH) / 2.0).Floor,
      ((screenY / halfH - screenX / halfW) / 2.0).Floor)
  }

  /** Every point of tile (gx, gy), that is grid point (gx + u, gy + v) with 0 <= u, v < 1, maps back to that tile. */
  lemma ToGridFindsTile(gx: int, gy: int, u: real, v: real)
    requires 0.0 <= u < 1.0 && 0.0 <= v < 1.0
    ensures ToGrid(ToScreen(gx as real + u, gy as real + v).x, ToScreen(gx as real + u, gy as real + v).y) == GridCell(gx, gy)
  {
    var p := ToScreen(gx as real + u, gy as real + v);
    assert p.x / 64.0 == (gx as real + u) - (gy as real + v);
    assert p.y / 32.0 == (gx as real + u) + (gy as real + v);
    assert (p.x / 64.0 + p.y / 32.0) / 2.0 == gx as real + u;
    assert (p.y / 32.0 - p.x / 64.0) / 2.0 == gy as real + v;
  }

  /** Round trip: projecting a grid cell to the screen and back gives the same cell. */
  lemma GridRoundTrip(gx: int, gy: int)
    ensures ToGrid(ToScreen(gx as real, gy as real).x, ToScreen(gx as real, gy as real).y) == GridCell(gx, gy)
  {
    ToGridFindsTile(gx, gy, 0.0, 0.0);
  }

  // ---------------------------------------------------------------------------
  // Buildings

  datatype BuildingDef = BuildingDef(name: string, sprite: string, gridSize: int, offsetY: int)

  const BUILDING_DEFS: map<string, BuildingDef> := map[
    "command-center" := BuildingDef("OPENCLAW GATEWAY", "hq", 2, -80),
    "barracks" := BuildingDef("AGENT SPAWNER", "barracks", 1, -40),
    "factory" := BuildingDef("CRON SCHEDULER", "manufactory", 2, -100),
    "powerplant" := BuildingDef("TOKEN SUPPLY", "powerplant", 1, -60),
    "extraction" := BuildingDef("DATA MINER", "extraction", 2, -80),
    "lab" := BuildingDef("TECH LAB", "lab", 1, -80),
    "defense" := BuildingDef("SECURITY", "defense", 1, -40)]

  const IDLE: string := "idle"

  /** The optional `data` argument of `createBuilding`; None means the key is absent. */
  datatype BuildingData = BuildingData(id: Option<string>, name: Option<string>, status: Option<string>)

  const NO_DATA: BuildingData := BuildingData(None, None, None)

  datatype EntityData = EntityData(id: string, name: string, status: string)

  /** A placed building (every entity of the world is one). */
  datatype Entity = Entity(buildingType: string, gridX: int, gridY: int, def: BuildingDef, data: EntityData)

  datatype World = World(entities: seq<Entity>)

  /** The world after `createBuilding`, and the entity it returned (None for `null`). */
  datatype Created = Created(world: World, entity: Option<Entity>)

  /**
   * One field of the new entity's data: first `given || fallback`, then the spread of
   * `data` writes `given` back over it whenever the key is present, even when empty.
   */
  function ResolveField(given: Option<string>, fallback: string): (r: string)
    ensures given.None? ==> r == fallback
    ensures given.Some? ==> r == given.value
  {
    var defaulted := if given.Some? && |given.value| > 0 then given.value else fallback;
    if given.Some? then given.value else defaulted
  }

  /**
   * `World.createBuilding`: an unknown type yields None and no change; a known one
   * appends exactly one entity at the given cell, whose id, name and status default
   * to the type, the definition's name and 'idle' when `data` leaves them out.
   */
  function CreateBuilding(w: World, buildingType: string, gridX: int, gridY: int, data: BuildingData): (r: Created)
    ensures buildingType !in BUILDING_DEFS ==> r == Created(w, None)
    ensures buildingType in BUILDING_DEFS ==>
      && r.entity.Some?
      && r.world.entities == w.entities + [r.entity.value]
      && r.entity.value.buildingType == buildingType
      && r.entity.value.def == BUILDING_DEFS[buildingType]
      && r.entity.value.gridX == gridX && r.entity.value.gridY == gridY
      && r.entity.value.data.id == data.id.GetOr(buildingType)
      && r.entity.value.data.name == data.name.GetOr(BUILDING_DEFS[buildingType].name)
      && r.entity.value.data.status == data.status.GetOr(IDLE)
  {
    if buildingType !in BUILDING_DEFS then Created(w, None)
    else
      var def := BUILDING_DEFS[buildingType];
      var entity := Entity(buildingType, gridX, gridY, def, EntityData(
        ResolveField(data.id, buildingType),
        ResolveField(data.name, def.name),
        ResolveField(data.status, IDLE)));
      Created(World(w.entities + [entity]), Some(entity))
  }

  /** A key that is present but empty is not replaced by the default: the spread comes last. */
  lemma EmptyStatusIsKept(w: World, gridX: int, gridY: int)
    ensures CreateBuilding(w, "lab", gridX, gridY, BuildingData(None, None, Some(""))).entity.value.data.status == ""
  {
  }

  /** With no `data` argument the new entity takes every default: the type, the definition's name and 'idle'. */
  lemma NoDataTakesDefaults(w: World, buildingType: string, gridX: int, gridY: int)
    requires buildingType in BUILDING_DEFS
    ensures CreateBuilding(w, buildingType, gridX, gridY, NO_DATA).entity.value.data
      == EntityData(buildingType, BUILDING_DEFS[buildingType].name, IDLE)
  {
  }

  /** `World.init`'s six starting buildings. */
  function InitialWorld(): World {
    var w0 := World([]);
    var w1 := CreateBuilding(w0, "command-center", 5, 5, BuildingData(Some("gateway"), None, Some("active"))).world;
    var w2 := CreateBuilding(w1, "barracks", 3, 7, BuildingData(Some("jarvis"), Some("JARVIS AGENT"), Some("idle"))).world;
    var w3 := CreateBuilding(w2, "factory", 7, 3, BuildingData(Some("cron"), None, Some("active"))).world;
    var w4 := CreateBuilding(w3, "powerplant", 2, 4, BuildingData(Some("tokens"), None, Some("active"))).world;
    var w5 := CreateBuilding(w4, "extraction", 8, 7, BuildingData(Some("ha"), Some("HOME ASSISTANT"), Some("connected"))).world;
    CreateBuilding(w5, "lab", 4, 2, BuildingData(Some("alpaca"), Some("ALPACA TRADING"), Some("connected"))).world
  }

  /** The starting world holds six buildings, in creation order, with the ids and names given at start-up. */
  lemma InitialWorldContents()
    ensures |InitialWorld().entities| == 6
    ensures InitialWorld().entities[0].data == EntityData("gateway", "OPENCLAW GATEWAY", "active")
    ensures InitialWorld().entities[1].data == EntityData("jarvis", "JARVIS AGENT", "idle")
    ensures InitialWorld().entities[2].data == EntityData("cron", "CRON SCHEDULER", "active")
    ensures InitialWorld().entities[3].data == EntityData("tokens", "TOKEN SUPPLY", "active")
    ensures InitialWorld().entities[4].data == EntityData("ha", "HOME ASSISTANT", "connected")
    ensures InitialWorld().entities[5].data == EntityData("alpaca", "ALPACA TRADING", "connected")
  {
  }

  /** Every entity is of a known building type and carries that type's definition. */
  predicate WellFormed(entities: seq<Entity>) {
    forall i :: 0 <= i < |entities| ==>
      entities[i].buildingType in BUILDING_DEFS && entities[i].def == BUILDING_DEFS[entities[i].buildingType]
  }

  /** Creating a building keeps the world well formed, whatever the type, cell and data. */
  lemma CreateKeepsWellFormed(w: World, buildingType: string, gridX: int, gridY: int, data: BuildingData)
    requires WellFormed(w.entities)
    ensures WellFormed(CreateBuilding(w, buildingType, gridX, gridY, data).world.entities)
  {
  }

  /** The arguments of one `createBuilding` call. */
  datatype Request = Request(buildingType: string, gridX: int, gridY: int, data: BuildingData)

  /** A run of `createBuilding` calls, in order, as `World.init` makes them. */
  function CreateAll(w: World, reqs: seq<Request>): World
    decreases |reqs|
  {
    if |reqs| == 0 then w
    else CreateAll(CreateBuilding(w, reqs[0].buildingType, reqs[0].gridX, reqs[0].gridY, reqs[0].data).world, reqs[1..])
  }

  /** The requested types that `BUILDING_DEFS` knows, in call order. */
  function KnownTypes(reqs: seq<Request>): seq<string>
    decreases |reqs|
  {
    if |reqs| == 0 then []
    else if reqs[0].buildingType in BUILDING_DEFS then [reqs[0].buildingType] + KnownTypes(reqs[1..])
    else KnownTypes(reqs[1..])
  }

  /**
   * A run of creations keeps the existing entities as they are and appends one entity
   * per known type, in call order; calls with an unknown type add nothing.
   */
  lemma {:induction false} CreateAllAppendsKnown(w: World, reqs: seq<Request>)
    ensures
      var r := CreateAll(w, reqs).entities;
      var k := KnownTypes(reqs);
      && |r| == |w.entities| + |k|
      && r[..|w.entities|] == w.entities
      && (forall i :: 0 <= i < |k| ==> r[|w.entities| + i].buildingType == k[i])
    decreases |reqs|
  {
    if |reqs| > 0 {
      var q := reqs[0];
      var w1 := CreateBuilding(w, q.buildingType, q.gridX, q.gridY, q.data).world;
      CreateAllAppendsKnown(w1, reqs[1..]);
      var r := CreateAll(w, reqs).entities;
      var k := KnownTypes(reqs);
      assert r == CreateAll(w1, reqs[1..]).entities;
      if q.buildingType in BUILDING_DEFS {
        assert |w1.entities| == |w.entities| + 1;
        assert r[..|w1.entities|] == w1.entities;
        assert r[..|w.entities|] == w1.entities[..|w.entities|];
        forall i | 0 <= i < |k|
          ensures r[|w.entities| + i].buildingType == k[i]
        {
          if i == 0 {
            assert r[|w.entities|] == w1.entities[|w.entities|];
          } else {
            assert k[i] == KnownTypes(reqs[1..])[i - 1];
          }
        }
      } else {
        assert w1 == w;
      }
    }
  }

  /** A run of creations keeps the world well formed. */
  lemma {:induction false} CreateAllKeepsWellFormed(w: World, reqs: seq<Request>)
    requires WellFormed(w.entities)
    ensures WellFormed(CreateAll(w, reqs).entities)
    decreases |reqs|
  {
    if |reqs| > 0 {
      var q := reqs[0];
      CreateKeepsWellFormed(w, q.buildingType, q.gridX, q.gridY, q.data);
      CreateAllKeepsWellFormed(CreateBuilding(w, q.buildingType, q.gridX, q.gridY, q.data).world, reqs[1..]);
    }
  }

  // ---------------------------------------------------------------------------
  // Status merge

  /** `newState.buildings` has a truthy (non-empty) status for this id. */
  predicate HasStatusFor(buildings: Option<map<string, string>>, id: string) {
    buildings.Some? && id in buildings.value && |buildings.value[id]| > 0
  }

  /** One entity after the merge: the pushed status when there is one, otherwise unchanged. */
  function Merged(e: Entity, buildings: Option<map<string, string>>): (r: Entity)
    ensures HasStatusFor(buildings, e.data.id) ==> r == e.(data := e.data.(status := buildings.value[e.data.id]))
    ensures !HasStatusFor(buildings, e.data.id) ==> r == e
  {
    if HasStatusFor(buildings, e.data.id) then e.(data := e.data.(status := buildings.value[e.data.id])) else e
  }

  /** The building-status part of `World.updateState`, entity by entity. */
  method MergeBuildingStatuses(entities: seq<Entity>, buildings: Option<map<string, string>>) returns (r: seq<Entity>)
    ensures |r| == |entities|
    ensures forall i :: 0 <= i < |entities| && HasStatusFor(buildings, entities[i].data.id) ==>
      r[i] == entities[i].(data := entities[i].data.(status := buildings.value[entities[i].data.id]))
    ensures forall i :: 0 <= i < |entities| && !HasStatusFor(buildings, entities[i].data.id) ==> r[i] == entities[i]
    ensures forall i :: 0 <= i < |entities| ==> r[i] == Merged(entities[i], buildings)
    ensures WellFormed(entities) ==> WellFormed(r)
  {
    r := entities;
    if buildings.None? {
      return;
    }
    var i := 0;
    while i < |entities|
      invariant 0 <= i <= |entities|
      invariant |r| == |entities|
      invariant forall j :: 0 <= j < i ==> r[j] == Merged(entities[j], buildings)
      invariant forall j :: i <= j < |entities| ==> r[j] == entities[j]
    {
      var id := entities[i].data.id;
      if id in buildings.value && |buildings.value[id]| > 0 {
        r := r[i := entities[i].(data := entities[i].data.(status := buildings.value[id]))];
      }
      i := i + 1;
    }
  }

  /** Merging the same update twice changes nothing more. */
  lemma MergeIdempotent(e: Entity, buildings: Option<map<string, string>>)
    ensures Merged(Merged(e, buildings), buildings) == Merged(e, buildings)
  {
  }

  // ---------------------------------------------------------------------------
  // Draw order

  /** The sort key of `World.render`: entities further down the screen are drawn later. */
  function Depth(e: Entity): int {
    e.gridX + e.gridY
  }

  ghost predicate SortedByDepth(s: seq<Entity>) {
    forall i, j | 0 <= i < j < |s| :: Depth(s[i]) <= Depth(s[j])
  }

  /** The entities of depth `d`, in their order in `s`. */
  function AtDepth(s: seq<Entity>, d: int): seq<Entity>
    decreases |s|
  {
    if |s| == 0 then []
    else (if Depth(s[0]) == d then [s[0]] else []) + AtDepth(s[1..], d)
  }

  lemma AtDepthCons(y: Entity, s: seq<Entity>, d: int)
    ensures AtDepth([y] + s, d) == (if Depth(y) == d then [y] else []) + AtDepth(s, d)
  {
    assert ([y] + s)[1..] == s;
  }

  /** Place `x` before the first element that is not shallower than it. */
  function Insert(x: Entity, s: seq<Entity>): (r: seq<Entity>)
    ensures multiset(r) == multiset(s) + multiset{x}
    decreases |s|
  {
    if |s| == 0 || Depth(x) <= Depth(s[0]) then [x] + s
    else
      assert s == [s[0]] + s[1..];
      [s[0]] + Insert(x, s[1..])
  }

  /** A sorted sequence stays sorted under a new head no deeper than any of its elements. */
  lemma SortedCons(y: Entity, s: seq<Entity>)
    requires SortedByDepth(s)
    requires forall z | z in multiset(s) :: Depth(y) <= Depth(z)
    ensures SortedByDepth([y] + s)
  {
    var r := [y] + s;
    forall i, j | 0 <= i < j < |r|
      ensures Depth(r[i]) <= Depth(r[j])
    {
      assert r[j] == s[j - 1];
      if i == 0 {
        assert s[j - 1] in multiset(s);
      } else {
        assert r[i] == s[i - 1];
      }
    }
  }

  /** Inserting into a depth-sorted sequence keeps it sorted. */
  lemma {:induction false} InsertKeepsSorted(x: Entity, s: seq<Entity>)
    requires SortedByDepth(s)
    ensures SortedByDepth(Insert(x, s))
    decreases |s|
  {
    if |s| == 0 || Depth(x) <= Depth(s[0]) {
      forall z | z in multiset(s)
        ensures Depth(x) <= Depth(z)
      {
        var k :| 0 <= k < |s| && s[k] == z;
        assert Depth(s[0]) <= Depth(s[k]);
      }
      SortedCons(x, s);
    } else {
      var rest := Insert(x, s[1..]);
      assert s == [s[0]] + s[1..];
      assert SortedByDepth(s[1..]) by {
        forall i, j | 0 <= i < j < |s[1..]|
          ensures Depth(s[1..][i]) <= Depth(s[1..][j])
        {
          assert s[1..][i] == s[i + 1] && s[1..][j] == s[j + 1];
        }
      }
      InsertKeepsSorted(x, s[1..]);
      forall z | z in multiset(rest)
        ensures Depth(s[0]) <= Depth(z)
      {
        if z != x {
          assert z in multiset(s[1..]);
          var k :| 0 <= k < |s[1..]| && s[1..][k] == z;
          assert s[1..][k] == s[k + 1];
        }
      }
      SortedCons(s[0], rest);
    }
  }

  /** `x` lands in front of every element of its own depth, and the others keep their order. */
  lemma {:induction false} InsertAtDepth(x: Entity, s: seq<Entity>, d: int)
    ensures AtDepth(Insert(x, s), d) == if Depth(x) == d then [x] + AtDepth(s, d) else AtDepth(s, d)
    decreases |s|
  {
    if |s| == 0 || Depth(x) <= Depth(s[0]) {
      AtDepthCons(x, s, d);
    } else {
      InsertAtDepth(x, s[1..], d);
      AtDepthCons(s[0], Insert(x, s[1..]), d);
      assert s == [s[0]] + s[1..];
      AtDepthCons(s[0], s[1..], d);
    }
  }

  /**
   * The order of `World.render`: a stable sort by depth (JavaScript's `Array.prototype.sort`
   * is stable). The result is a permutation of the entities, in non-decreasing depth, and
   * entities of equal depth keep their relative order.
   */
  function SortByDepth(s: seq<Entity>): (r: seq<Entity>)
    ensures multiset(r) == multiset(s)
    ensures SortedByDepth(r)
    ensures forall d :: AtDepth(r, d) == AtDepth(s, d)
    decreases |s|
  {
    if |s| == 0 then []
    else
      var rest := SortByDepth(s[1..]);
      assert s == [s[0]] + s[1..];
      InsertKeepsSorted(s[0], rest);
      assert forall d :: AtDepth(Insert(s[0], rest), d) == AtDepth(s, d) by {
        forall d
          ensures AtDepth(Insert(s[0], rest), d) == AtDepth(s, d)
        {
          InsertAtDepth(s[0], rest, d);
          AtDepthCons(s[0], s[1..], d);
        }
      }
      Insert(s[0], rest)
  }
}
