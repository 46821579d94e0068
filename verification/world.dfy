/** The map of areas (`WorldManager` in js/systems/world.js): gated area
    changes, the visited list, forage spots on a respawn timer, and which
    NPCs a schedule places in the current area. The quest event and the
    inventory addition that `changeArea` and `forage` trigger are composed in
    module Game. Time is an integer millisecond clock (`Date.now()`). */
module World {
  import opened Common
  import Inventory

  type AreaId = string
  type NpcId = string

  /** Milliseconds in an hour: the divisor that turns elapsed clock time into
      respawn hours. */
  const MsPerHour: int := 3600000
  /** The hour assumed when the game clock gives none (or gives 0). */
  const DefaultHour: int := 12

  datatype Spot = Spot(x: int, y: int, items: seq<Inventory.ItemId>, respawnHours: int)

  /** An `AreaData` entry, reduced to what the manager reads. */
  datatype Area = Area(requiresItem: Option<Inventory.ItemId>, npcs: seq<NpcId>, forageSpots: seq<Spot>)

  type AreaCatalog = map<AreaId, Area>

  /** One `"start-end": location` schedule entry, already split into numbers. */
  datatype Window = Window(start: int, end: int, location: AreaId)

  /** An `NPCData` entry's schedule, in declaration order; None when the NPC
      has no schedule. */
  type Schedules = map<NpcId, Option<seq<Window>>>

  datatype World = World(
    current: AreaId,
    visited: seq<AreaId>,
    foraged: map<(AreaId, nat), int>,
    secrets: seq<string>)

  const Initial := World("village_square", ["village_square"], map[], [])

  /** The result of `changeArea`: `false`, a `missing_item` failure, or
      success with the entry position. */
  datatype Entry = NoSuchArea | MissingItem(item: Inventory.ItemId) | Entered(x: int, y: int)

  /** The world half of `changeArea(areaId, entryX, entryY)`: unknown areas
      and areas whose required item is not held are refused with no change;
      otherwise the area becomes current and is recorded as visited once. */
  function ChangeArea(areas: AreaCatalog, w: World, inv: Inventory.Inventory, id: AreaId, x: int, y: int)
    : (r: (World, Entry))
    ensures r.1 == NoSuchArea <==> id !in areas
    ensures r.1.MissingItem? <==> id in areas && areas[id].requiresItem.Some?
                                  && !Inventory.HasItem(inv, areas[id].requiresItem.value, 1)
    ensures r.1.MissingItem? ==> r.1.item == areas[id].requiresItem.value
    ensures !r.1.Entered? ==> r.0 == w
    ensures r.1.Entered? ==> && r.1 == Entered(x, y)
                             && r.0.current == id && id in r.0.visited
                             && r.0.visited == (if id in w.visited then w.visited else w.visited + [id])
                             && r.0.foraged == w.foraged && r.0.secrets == w.secrets
    ensures NoDup(w.visited) ==> NoDup(r.0.visited)
  {
    if id !in areas then (w, NoSuchArea)
    else
      var area := areas[id];
      if area.requiresItem.Some? && !Inventory.HasItem(inv, area.requiresItem.value, 1) then
        (w, MissingItem(area.requiresItem.value))
      else
        var visited := if id in w.visited then w.visited else w.visited + [id];
        (w.(current := id, visited := visited), Entered(x, y))
  }

  /** `canForage(spotIndex)` at clock `now`: a spot never foraged (or with a
      zero time) is ready; otherwise it is ready when it exists and at least
      its respawn hours have passed. */
  function CanForage(areas: AreaCatalog, w: World, idx: nat, now: int): (r: bool)
    ensures var key := (w.current, idx);
            r <==> || key !in w.foraged || w.foraged[key] == 0
                   || (&& w.current in areas && idx < |areas[w.current].forageSpots|
                       && now - w.foraged[key] >= areas[w.current].forageSpots[idx].respawnHours * MsPerHour)
  {
    var key := (w.current, idx);
    if key !in w.foraged || w.foraged[key] == 0 then true
    else if w.current !in areas || idx >= |areas[w.current].forageSpots| then false
    else
      var spot := areas[w.current].forageSpots[idx];
      (now - w.foraged[key]) >= spot.respawnHours * MsPerHour
  }

  /** The world half of `forage(spotIndex)`: when the spot is ready and
      exists, stamps it with `now` and picks one of its items (`pick` stands
      for the random draw). A spot with no items is stamped but yields none. */
  function Forage(areas: AreaCatalog, w: World, idx: nat, now: int, pick: nat): (r: (World, Option<Inventory.ItemId>))
    ensures var ready := CanForage(areas, w, idx, now) && w.current in areas
                         && idx < |areas[w.current].forageSpots|;
            && (!ready ==> r == (w, None))
            && (ready ==> && r.0 == w.(foraged := w.foraged[(w.current, idx) := now])
                          && (r.1.Some? <==> |areas[w.current].forageSpots[idx].items| > 0)
                          && (r.1.Some? ==> r.1.value in areas[w.current].forageSpots[idx].items))
  {
    if !CanForage(areas, w, idx, now) then (w, None)
    else if w.current !in areas || idx >= |areas[w.current].forageSpots| then (w, None)
    else
      var spot := areas[w.current].forageSpots[idx];
      var w1 := w.(foraged := w.foraged[(w.current, idx) := now]);
      if |spot.items| == 0 then (w1, None)
      else (w1, Some(spot.items[pick % |spot.items|]))
  }

  /** The schedule test for one window: `[start, end)` when start < end,
      otherwise the window wraps past midnight. */
  predicate InWindow(hour: int, win: Window) {
    if win.start < win.end then win.start <= hour < win.end
    else hour >= win.start || hour < win.end
  }

  /** `GameState.gameTime.hour || 12`. */
  function EffectiveHour(hour: Option<int>): (h: int)
    ensures hour.Some? && hour.value != 0 ==> h == hour.value
    ensures hour.None? || hour.value == 0 ==> h == DefaultHour
  {
    if hour.Some? && hour.value != 0 then hour.value else DefaultHour
  }

  /** The first window of a schedule that covers `hour`. */
  function FirstWindow(ws: seq<Window>, hour: int): (r: Option<nat>)
    ensures r.Some? ==> && r.value < |ws| && InWindow(hour, ws[r.value])
                        && forall k | 0 <= k < r.value :: !InWindow(hour, ws[k])
    ensures r.None? ==> forall k | 0 <= k < |ws| :: !InWindow(hour, ws[k])
  {
    if ws == [] then None
    else if InWindow(hour, ws[0]) then Some(0)
    else match FirstWindow(ws[1..], hour)
      case None => None
      case Some(k) => Some(k + 1)
  }

  /** The filter of `getNPCsInCurrentArea` for one NPC: no schedule means
      always present; otherwise the first window covering the hour decides,
      and no covering window means absent. */
  predicate Present(npcs: Schedules, npc: NpcId, area: AreaId, hour: int) {
    if npc !in npcs || npcs[npc].None? then true
    else match FirstWindow(npcs[npc].value, hour)
      case None => false
      case Some(k) => npcs[npc].value[k].location == area
  }

  /** `Array.filter` with `Present`: keeps each listed NPC that the schedule
      places here, as often as it is listed, in listing order (the order is
      FilterAppend). */
  function Filter(ids: seq<NpcId>, npcs: Schedules, area: AreaId, hour: int): (r: seq<NpcId>)
    ensures forall x :: x in r <==> x in ids && Present(npcs, x, area, hour)
    ensures |r| <= |ids|
  {
    if ids == [] then []
    else
      var rest := Filter(ids[1..], npcs, area, hour);
      assert forall x :: x in ids <==> x == ids[0] || x in ids[1..];
      if Present(npcs, ids[0], area, hour) then [ids[0]] + rest else rest
  }

  /** Filtering keeps the listing order: the filter of a concatenation is
      the concatenation of the filters. With FilterOne this pins the filter
      down as the order-keeping one. */
  lemma {:induction false} FilterAppend(a: seq<NpcId>, b: seq<NpcId>, npcs: Schedules, area: AreaId, hour: int)
    ensures Filter(a + b, npcs, area, hour) == Filter(a, npcs, area, hour) + Filter(b, npcs, area, hour)
    decreases |a|
  {
    if a == [] {
      assert a + b == b;
    } else {
      var ab := a + b;
      assert ab[0] == a[0];
      assert ab[1..] == a[1..] + b;
      FilterAppend(a[1..], b, npcs, area, hour);
    }
  }

  /** Filtering keeps each present NPC as often as it is listed, and drops
      every other one. */
  lemma {:induction false} FilterCounts(ids: seq<NpcId>, npcs: Schedules, area: AreaId, hour: int, x: NpcId)
    ensures multiset(Filter(ids, npcs, area, hour))[x] == (if Present(npcs, x, area, hour) then multiset(ids)[x] else 0)
    decreases |ids|
  {
    if ids != [] {
      FilterCounts(ids[1..], npcs, area, hour, x);
      assert ids == [ids[0]] + ids[1..];
      assert multiset(ids) == multiset{ids[0]} + multiset(ids[1..]);
      var rest := Filter(ids[1..], npcs, area, hour);
      if Present(npcs, ids[0], area, hour) {
        assert multiset([ids[0]] + rest) == multiset{ids[0]} + multiset(rest);
      }
    }
  }

  /** A single listed NPC is kept exactly when the schedule places it here. */
  lemma FilterOne(x: NpcId, npcs: Schedules, area: AreaId, hour: int)
    ensures Filter([x], npcs, area, hour) == (if Present(npcs, x, area, hour) then [x] else [])
  {
    assert [x][1..] == [];
  }

  /** `getNPCsInCurrentArea()`, as NPC ids in the area's listing order. */
  function NpcsInCurrentArea(areas: AreaCatalog, npcs: Schedules, w: World, hour: Option<int>): (r: seq<NpcId>)
    ensures w.current !in areas ==> r == []
    ensures w.current in areas ==>
              forall x :: x in r <==> (x in areas[w.current].npcs
                                    && Present(npcs, x, w.current, EffectiveHour(hour)))
    ensures w.current in areas ==>
              forall x :: multiset(r)[x] == (if Present(npcs, x, w.current, EffectiveHour(hour))
                                             then multiset(areas[w.current].npcs)[x] else 0)
  {
    if w.current !in areas then []
    else
      var ids, h := areas[w.current].npcs, EffectiveHour(hour);
      assert forall x :: multiset(Filter(ids, npcs, w.current, h))[x]
                         == (if Present(npcs, x, w.current, h) then multiset(ids)[x] else 0) by {
        forall x { FilterCounts(ids, npcs, w.current, h, x); }
      }
      Filter(ids, npcs, w.current, h)
  }

  /** A wrapping window `s-e` (s >= e) covers exactly the hours outside
      `[e, s)`. */
  lemma WrappingWindow(hour: int, win: Window)
    requires win.start >= win.end
    ensures InWindow(hour, win) <==> !(win.end <= hour < win.start)
  {
  }

  /** Midnight counts as noon: an hour of 0 is read as 12, so an NPC whose
      only window is `20-6` at home is absent from its evening area at
      midnight as well as at noon. */
  lemma MidnightReadsAsNoon()
    ensures var npcs: Schedules := map["mysterious_sadhu" := Some([Window(20, 6, "temple_hill")])];
            && !Present(npcs, "mysterious_sadhu", "temple_hill", EffectiveHour(Some(0)))
            && Present(npcs, "mysterious_sadhu", "temple_hill", 23)
  {
  }

  /** `getSaveData()` / `loadSaveData(data)`: each present (and, for the
      current area, non-empty) key replaces its field. */
  datatype LoadData = LoadData(
    current: Option<AreaId>,
    visited: Option<seq<AreaId>>,
    foraged: Option<map<(AreaId, nat), int>>,
    secrets: Option<seq<string>>)

  function Save(w: World): LoadData {
    LoadData(Some(w.current), Some(w.visited), Some(w.foraged), Some(w.secrets))
  }

  function Load(w: World, d: LoadData): (r: World)
    ensures r.current == (if d.current.Some? && d.current.value != "" then d.current.value else w.current)
    ensures r.visited == (if d.visited.Some? then d.visited.value else w.visited)
    ensures r.foraged == (if d.foraged.Some? then d.foraged.value else w.foraged)
    ensures r.secrets == (if d.secrets.Some? then d.secrets.value else w.secrets)
  {
    World(
      if d.current.Some? && d.current.value != "" then d.current.value else w.current,
      if d.visited.Some? then d.visited.value else w.visited,
      if d.foraged.Some? then d.foraged.value else w.foraged,
      if d.secrets.Some? then d.secrets.value else w.secrets)
  }

  /** A world whose current area is named survives a save and load exactly. */
  lemma SaveLoadRoundTrip(w: World, other: World)
    requires w.current != ""
    ensures Load(other, Save(w)) == w
  {
  }
}
