/** The quest engine's own state machine (`QuestManager` and the
    `QuestData` catalogue shape in rpg-vibe-2025/js/systems/quest.js):
    gated starts, the first-match objective scan with clamped progress,
    retirement of completed quests, the quest log, progress queries,
    save/load and branching choices. Reward delivery, which calls out to the
    other ledgers and can re-enter the engine, is composed in module Game. */
module Quests {
  import opened Common

  type QuestId = string
  type ItemId = string
  type NpcId = string
  type PetId = string

  /** Objective targets starting with this prefix match any event target. */
  const WildcardPrefix: string := "any_"
  /** Log entries kept by a save (`questLog.slice(-50)`). */
  const LogKept: nat := 50

  datatype QuestKind = Main | Side | Daily

  /** Objective and event types. */
  datatype EventKind = Collect | Interact | Craft | Dialogue | Location | Give | Serve | Activity | QuestDone | Puzzle

  datatype Objective = Objective(
    id: string,
    kind: EventKind,
    target: string,
    count: int,
    current: int,
    item: Option<ItemId>)

  /** A reward bundle. 0, the empty list and None stand for a missing field. */
  datatype Rewards = Rewards(
    coins: int,
    items: seq<ItemId>,
    xp: int,
    friendship: seq<(NpcId, int)>,
    pet: Option<PetId>)

  const NoRewards := Rewards(0, [], 0, [], None)

  /** One branch of a quest's `choices`. */
  datatype Choice = Choice(nextStage: Option<string>, rewards: Rewards)

  /** A `QuestData` entry (titles and descriptions left out). */
  datatype QuestDef = QuestDef(
    kind: QuestKind,
    giver: Option<NpcId>,
    prerequisites: seq<QuestId>,
    objectives: seq<Objective>,
    rewards: Rewards,
    unlocks: seq<QuestId>,
    repeatable: bool,
    choices: map<string, Choice>)

  type Catalog = map<QuestId, QuestDef>

  /** A quest in progress, holding its own copy of the objectives. */
  datatype Instance = Instance(id: QuestId, objectives: seq<Objective>, startDay: int, startTime: int)

  datatype LogEvent = Started | Completed | Unlocked | Chose(choiceId: string)

  datatype LogEntry = LogEntry(questId: QuestId, event: LogEvent, timestamp: int, day: int)

  /** The clock reading (`Date.now()`) and game day at the time of a call. */
  datatype Clock = Clock(now: int, day: int)

  datatype QuestState = QuestState(active: seq<Instance>, completed: seq<QuestId>, log: seq<LogEntry>)

  const Initial := QuestState([], [], [])

  /** `GameState.day || 1`. */
  function GameDay(clk: Clock): int {
    if clk.day != 0 then clk.day else 1
  }

  function Entry(id: QuestId, ev: LogEvent, clk: Clock): LogEntry {
    LogEntry(id, ev, clk.now, GameDay(clk))
  }

  // ----- state predicates -----

  predicate IsActive(s: QuestState, id: QuestId) {
    exists k | 0 <= k < |s.active| :: s.active[k].id == id
  }

  ghost function ActiveIds(active: seq<Instance>): set<QuestId> {
    set inst | inst in active :: inst.id
  }

  /** Every active quest has a catalog definition (otherwise completing it
      throws). */
  ghost predicate Known(cat: Catalog, s: QuestState) {
    ActiveIds(s.active) <= cat.Keys
  }

  /** At most one active instance per quest id. */
  predicate UniqueActive(active: seq<Instance>) {
    forall a, b | 0 <= a < b < |active| :: active[a].id != active[b].id
  }

  predicate ObjectiveOk(o: Objective) {
    0 <= o.current <= o.count
  }

  /** Every active objective has 0 <= current <= count. */
  predicate Bounded(active: seq<Instance>) {
    forall k, j | 0 <= k < |active| && 0 <= j < |active[k].objectives| :: ObjectiveOk(active[k].objectives[j])
  }

  /** Every catalog template is a valid starting point. */
  predicate TemplatesOk(cat: Catalog) {
    forall id, j | id in cat && 0 <= j < |cat[id].objectives| :: ObjectiveOk(cat[id].objectives[j])
  }

  /** What every quest-engine transition keeps: the active list never grows
      or gains an id, uniqueness of active ids survives, and the completed
      list and the log are only appended to. */
  ghost predicate Evolves(a: QuestState, b: QuestState) {
    && |b.active| <= |a.active|
    && ActiveIds(b.active) <= ActiveIds(a.active)
    && (UniqueActive(a.active) ==> UniqueActive(b.active))
    && a.completed <= b.completed
    && (forall k | |a.completed| <= k < |b.completed| :: b.completed[k] in ActiveIds(a.active))
    && a.log <= b.log
  }

  lemma EvolvesRefl(a: QuestState)
    ensures Evolves(a, a)
  {
  }

  lemma EvolvesTrans(a: QuestState, b: QuestState, c: QuestState)
    requires Evolves(a, b) && Evolves(b, c)
    ensures Evolves(a, c)
  {
    assert a.completed == b.completed[..|a.completed|] && b.completed == c.completed[..|b.completed|];
    assert a.log == b.log[..|a.log|] && b.log == c.log[..|b.log|];
    forall k | |a.completed| <= k < |c.completed| ensures c.completed[k] in ActiveIds(a.active) {
      if k < |b.completed| {
        assert c.completed[k] == b.completed[k];
      }
    }
  }

  /** The set of active ids holds exactly the ids of active quests. */
  lemma ActiveIdsMeaning(s: QuestState, id: QuestId)
    ensures id in ActiveIds(s.active) <==> IsActive(s, id)
  {
    if IsActive(s, id) {
      var k :| 0 <= k < |s.active| && s.active[k].id == id;
      assert s.active[k] in s.active;
    }
    if id in ActiveIds(s.active) {
      var inst :| inst in s.active && inst.id == id;
      var k :| 0 <= k < |s.active| && s.active[k] == inst;
    }
  }

  /** An element of a prefix is an element of the whole. */
  lemma PrefixMember<T>(a: seq<T>, b: seq<T>, x: T)
    requires a <= b
    ensures x in a ==> x in b
  {
    if x in a {
      var k :| 0 <= k < |a| && a[k] == x;
      assert b[k] == x;
    }
  }

  // ----- starting -----

  /** `activeQuests.find(q => q.id === id)`: the first active instance. */
  function FindActive(active: seq<Instance>, id: QuestId): (r: Option<nat>)
    ensures r.Some? ==> && r.value < |active| && active[r.value].id == id
                        && forall k | 0 <= k < r.value :: active[k].id != id
    ensures r.None? ==> forall k | 0 <= k < |active| :: active[k].id != id
  {
    if active == [] then None
    else if active[0].id == id then Some(0)
    else match FindActive(active[1..], id)
      case None => None
      case Some(k) => Some(k + 1)
  }

  /** The prerequisite loop: every listed quest is in the completed list. */
  function PrereqsMet(prereqs: seq<QuestId>, completed: seq<QuestId>): (r: bool)
    ensures r <==> forall k | 0 <= k < |prereqs| :: prereqs[k] in completed
  {
    if prereqs == [] then true
    else if prereqs[0] !in completed then false
    else PrereqsMet(prereqs[1..], completed)
  }

  /** The four start gates, stated independently of their order. */
  predicate MayStart(cat: Catalog, s: QuestState, id: QuestId) {
    && id in cat
    && (forall p | p in cat[id].prerequisites :: p in s.completed)
    && !IsActive(s, id)
    && (id in s.completed ==> cat[id].repeatable)
  }

  /** `startQuest(questId)`: refused, with nothing changed, for an unknown
      id, a missing prerequisite, an already active quest, or a completed
      one-shot quest; otherwise appends one instance holding its own copy of
      the catalog objectives and one `started` log entry. */
  function StartQuest(cat: Catalog, s: QuestState, id: QuestId, clk: Clock): (r: (QuestState, bool))
    ensures r.1 <==> MayStart(cat, s, id)
    ensures !r.1 ==> r.0 == s
    ensures r.1 ==> && r.0.active == s.active + [Instance(id, cat[id].objectives, GameDay(clk), clk.now)]
                    && r.0.completed == s.completed
                    && r.0.log == s.log + [Entry(id, Started, clk)]
    ensures UniqueActive(s.active) ==> UniqueActive(r.0.active)
    ensures Bounded(s.active) && TemplatesOk(cat) ==> Bounded(r.0.active)
    ensures Known(cat, s) ==> Known(cat, r.0)
  {
    if id !in cat then (s, false)
    else
      var def := cat[id];
      if !PrereqsMet(def.prerequisites, s.completed) then (s, false)
      else if FindActive(s.active, id).Some? then (s, false)
      else if id in s.completed && !def.repeatable then (s, false)
      else
        var inst := Instance(id, def.objectives, GameDay(clk), clk.now);
        var r := QuestState(s.active + [inst], s.completed, s.log + [Entry(id, Started, clk)]);
        assert ActiveIds(r.active) == ActiveIds(s.active) + {id};
        (r, true)
  }

  // ----- objective matching -----

  predicate IsWildcard(target: string) {
    StartsWith(target, WildcardPrefix)
  }

  /** An objective reacts to an event of its own type whose target equals
      its target, or to any event of its type when its target is a
      wildcard. */
  predicate Matches(o: Objective, kind: EventKind, target: string) {
    o.kind == kind && (o.target == target || IsWildcard(o.target))
  }

  predicate AnyMatch(objs: seq<Objective>, kind: EventKind, target: string) {
    exists j | 0 <= j < |objs| :: Matches(objs[j], kind, target)
  }

  /** The first objective of one quest that matches. */
  function FirstObjective(objs: seq<Objective>, kind: EventKind, target: string): (r: Option<nat>)
    ensures r.Some? ==> && r.value < |objs| && Matches(objs[r.value], kind, target)
                        && forall j | 0 <= j < r.value :: !Matches(objs[j], kind, target)
    ensures r.None? <==> !AnyMatch(objs, kind, target)
  {
    if objs == [] then None
    else if Matches(objs[0], kind, target) then Some(0)
    else match FirstObjective(objs[1..], kind, target)
      case None =>
        assert forall j | 1 <= j < |objs| :: objs[j] == objs[1..][j - 1];
        None
      case Some(j) => Some(j + 1)
  }

  /** The scan of `updateObjective`: active quests in start order, each
      quest's objectives in order; the first match overall. */
  function FindMatch(active: seq<Instance>, kind: EventKind, target: string): (r: Option<(nat, nat)>)
    ensures r.Some? ==> && r.value.0 < |active|
                        && r.value.1 < |active[r.value.0].objectives|
                        && Matches(active[r.value.0].objectives[r.value.1], kind, target)
                        && (forall k | 0 <= k < r.value.0 :: !AnyMatch(active[k].objectives, kind, target))
                        && (forall j | 0 <= j < r.value.1 :: !Matches(active[r.value.0].objectives[j], kind, target))
    ensures r.None? <==> forall k | 0 <= k < |active| :: !AnyMatch(active[k].objectives, kind, target)
  {
    if active == [] then None
    else match FirstObjective(active[0].objectives, kind, target)
      case Some(j) => Some((0, j))
      case None =>
        match FindMatch(active[1..], kind, target)
        case None =>
          assert forall k | 1 <= k < |active| :: active[k] == active[1..][k - 1];
          None
        case Some((k, j)) => Some((k + 1, j))
  }

  /** The progress rule: `min(current + amount, count)`. */
  function Progressed(o: Objective, amount: int): (p: Objective)
    ensures p == o.(current := p.current)
    ensures p.current <= o.count && p.current <= o.current + amount
    ensures p.current == o.count || p.current == o.current + amount
    ensures ObjectiveOk(o) && amount >= 0 ==> ObjectiveOk(p)
  {
    o.(current := Min(o.current + amount, o.count))
  }

  /** The objective-advancing part of `updateObjective(type, target,
      amount)`: exactly one objective — the first match of the scan — is
      advanced, even if it is already full; nothing else changes. Returns
      where it was, or None when nothing matched. */
  function Advance(s: QuestState, kind: EventKind, target: string, amount: int)
    : (r: (QuestState, Option<(nat, nat)>))
    ensures r.1 == FindMatch(s.active, kind, target)
    ensures r.1.None? ==> r.0 == s
    ensures r.1.Some? ==> var (i, j) := r.1.value;
              && i < |s.active| && j < |s.active[i].objectives|
              && |r.0.active| == |s.active|
              && (forall k | 0 <= k < |s.active| && k != i :: r.0.active[k] == s.active[k])
              && r.0.active[i] == s.active[i].(objectives := s.active[i].objectives[j := Progressed(s.active[i].objectives[j], amount)])
              && r.0.completed == s.completed && r.0.log == s.log
    ensures Evolves(s, r.0)
    ensures amount >= 0 && Bounded(s.active) ==> Bounded(r.0.active)
  {
    match FindMatch(s.active, kind, target)
    case None => (s, None)
    case Some((i, j)) =>
      var inst := s.active[i];
      var inst' := inst.(objectives := inst.objectives[j := Progressed(inst.objectives[j], amount)]);
      var r := s.(active := s.active[i := inst']);
      assert forall k | 0 <= k < |r.active| :: r.active[k].id == s.active[k].id;
      assert ActiveIds(r.active) <= ActiveIds(s.active) by {
        forall x | x in ActiveIds(r.active) ensures x in ActiveIds(s.active) {
          var inst2 :| inst2 in r.active && inst2.id == x;
          var k :| 0 <= k < |r.active| && r.active[k] == inst2;
          assert s.active[k] in s.active;
        }
      }
      (r, Some((i, j)))
  }

  /** `isQuestComplete(quest)`: every objective has reached its count. */
  predicate IsComplete(inst: Instance) {
    forall j | 0 <= j < |inst.objectives| :: inst.objectives[j].current >= inst.objectives[j].count
  }

  // ----- completion -----

  lemma RemoveAtKeeps(active: seq<Instance>, k: nat)
    requires k < |active|
    ensures ActiveIds(RemoveAt(active, k)) <= ActiveIds(active)
    ensures UniqueActive(active) ==> UniqueActive(RemoveAt(active, k))
    ensures UniqueActive(active) ==> active[k].id !in ActiveIds(RemoveAt(active, k))
    ensures Bounded(active) ==> Bounded(RemoveAt(active, k))
  {
    var r := RemoveAt(active, k);
    if UniqueActive(active) {
      forall a, b | 0 <= a < b < |r| ensures r[a].id != r[b].id {
        var a' := if a < k then a else a + 1;
        var b' := if b < k then b else b + 1;
        assert r[a] == active[a'] && r[b] == active[b'];
      }
      forall x | x in r ensures x.id != active[k].id {
        var m :| 0 <= m < |r| && r[m] == x;
        var m' := if m < k then m else m + 1;
        assert r[m] == active[m'];
      }
    }
    if Bounded(active) {
      forall a, j | 0 <= a < |r| && 0 <= j < |r[a].objectives| ensures ObjectiveOk(r[a].objectives[j]) {
        var a' := if a < k then a else a + 1;
        assert r[a] == active[a'];
      }
    }
  }

  /** The bookkeeping part of `completeQuest(questId)`: refused when the
      quest is not active; otherwise its (first) instance leaves the active
      list and its id joins the completed list unless it is repeatable. */
  function Retire(cat: Catalog, s: QuestState, id: QuestId): (r: Option<QuestState>)
    requires Known(cat, s)
    ensures r.None? <==> !IsActive(s, id)
    ensures r.Some? ==> && id in cat
                        && r.value.active == RemoveAt(s.active, FindActive(s.active, id).value)
                        && r.value.completed == s.completed + (if cat[id].repeatable then [] else [id])
                        && r.value.log == s.log
                        && |r.value.active| == |s.active| - 1
                        && Evolves(s, r.value) && Known(cat, r.value)
                        && (UniqueActive(s.active) ==> !IsActive(r.value, id))
                        && (Bounded(s.active) ==> Bounded(r.value.active))
  {
    match FindActive(s.active, id)
    case None => None
    case Some(k) =>
      assert s.active[k] in s.active;
      RemoveAtKeeps(s.active, k);
      var active := RemoveAt(s.active, k);
      assert forall m | 0 <= m < |active| :: active[m] in active;
      Some(QuestState(active, s.completed + (if cat[id].repeatable then [] else [id]), s.log))
  }

  function UnlockEntries(unlocks: seq<QuestId>, clk: Clock): (r: seq<LogEntry>)
    ensures |r| == |unlocks|
    ensures forall k | 0 <= k < |r| :: r[k] == Entry(unlocks[k], Unlocked, clk)
  {
    seq(|unlocks|, k requires 0 <= k < |unlocks| => Entry(unlocks[k], Unlocked, clk))
  }

  /** The closing part of `completeQuest`: each `unlocks` id is only logged
      as `unlocked` (nothing is started), then one `completed` entry. */
  function LogCompletion(s: QuestState, id: QuestId, unlocks: seq<QuestId>, clk: Clock): (r: QuestState)
    ensures r.active == s.active && r.completed == s.completed
    ensures |r.log| == |s.log| + |unlocks| + 1 && r.log[..|s.log|] == s.log
    ensures forall k | 0 <= k < |unlocks| :: r.log[|s.log| + k] == Entry(unlocks[k], Unlocked, clk)
    ensures r.log[|r.log| - 1] == Entry(id, Completed, clk)
    ensures Evolves(s, r)
  {
    s.(log := s.log + UnlockEntries(unlocks, clk) + [Entry(id, Completed, clk)])
  }

  // ----- queries -----

  /** Objectives that have reached their count. */
  function CountDone(objs: seq<Objective>): (n: nat)
    ensures n <= |objs|
    ensures n == |objs| <==> forall j | 0 <= j < |objs| :: objs[j].current >= objs[j].count
  {
    if objs == [] then 0
    else
      assert forall j | 1 <= j < |objs| :: objs[j] == objs[1..][j - 1];
      (if objs[0].current >= objs[0].count then 1 else 0) + CountDone(objs[1..])
  }

  /** `getQuestProgress(questId)` without the percentage: the numbers of
      finished and of all objectives of the active quest. */
  function Progress(s: QuestState, id: QuestId): (r: Option<(nat, nat)>)
    ensures r.None? <==> !IsActive(s, id)
    ensures r.Some? ==> var inst := s.active[FindActive(s.active, id).value];
                        && r.value.1 == |inst.objectives|
                        && r.value.0 <= r.value.1
                        && (r.value.0 == r.value.1 <==> IsComplete(inst))
  {
    match FindActive(s.active, id)
    case None => None
    case Some(k) =>
      var objs := s.active[k].objectives;
      Some((CountDone(objs), |objs|))
  }

  // ----- branching choices -----

  /** `handleChoice(questId, choiceId)`: refused with no log entry unless the
      quest is active and its definition has that choice; otherwise logs
      `choice_<id>` and hands back the choice's rewards. Objective progress
      is neither checked nor changed. */
  function Choose(cat: Catalog, s: QuestState, id: QuestId, choiceId: string, clk: Clock)
    : (r: (QuestState, Option<Rewards>))
    requires Known(cat, s)
    ensures r.1.Some? <==> IsActive(s, id) && choiceId in cat[id].choices
    ensures r.1.None? ==> r.0 == s
    ensures r.1.Some? ==> && r.1.value == cat[id].choices[choiceId].rewards
                          && r.0 == s.(log := s.log + [Entry(id, Chose(choiceId), clk)])
    ensures Evolves(s, r.0)
  {
    match FindActive(s.active, id)
    case None => (s, None)
    case Some(k) =>
      assert s.active[k] in s.active;
      if choiceId !in cat[id].choices then (s, None)
      else (s.(log := s.log + [Entry(id, Chose(choiceId), clk)]), Some(cat[id].choices[choiceId].rewards))
  }

  // ----- save / load -----

  /** `slice(-n)`: the last `n` entries, in order. */
  function KeepLast<T>(xs: seq<T>, n: nat): (r: seq<T>)
    ensures |r| == Min(n, |xs|)
    ensures r == xs[|xs| - |r|..]
  {
    if |xs| <= n then xs else xs[|xs| - n..]
  }

  datatype SaveData = SaveData(active: seq<Instance>, completed: seq<QuestId>, log: seq<LogEntry>)

  /** The object `loadSaveData` receives: each key may be missing. */
  datatype LoadData = LoadData(
    active: Option<seq<Instance>>,
    completed: Option<seq<QuestId>>,
    log: Option<seq<LogEntry>>)

  /** `getSaveData()`: the active and completed lists, and the most recent
      50 log entries. */
  function Save(s: QuestState): (d: SaveData)
    ensures d.active == s.active && d.completed == s.completed
    ensures |d.log| == Min(LogKept, |s.log|) && d.log == s.log[|s.log| - |d.log|..]
  {
    SaveData(s.active, s.completed, KeepLast(s.log, LogKept))
  }

  function AsLoad(d: SaveData): LoadData {
    LoadData(Some(d.active), Some(d.completed), Some(d.log))
  }

  /** `loadSaveData(data)`: each present key replaces its field on its own. */
  function Load(s: QuestState, d: LoadData): (r: QuestState)
    ensures r.active == (if d.active.Some? then d.active.value else s.active)
    ensures r.completed == (if d.completed.Some? then d.completed.value else s.completed)
    ensures r.log == (if d.log.Some? then d.log.value else s.log)
  {
    QuestState(
      if d.active.Some? then d.active.value else s.active,
      if d.completed.Some? then d.completed.value else s.completed,
      if d.log.Some? then d.log.value else s.log)
  }

  /** A save loaded back gives the same active and completed quests and the
      last 50 log entries, whatever state it is loaded over. */
  lemma SaveLoadRoundTrip(s: QuestState, other: QuestState)
    ensures Load(other, AsLoad(Save(s))) == s.(log := KeepLast(s.log, LogKept))
    ensures |s.log| <= LogKept ==> Load(other, AsLoad(Save(s))) == s
  {
  }

  /** With 60 log entries, a save keeps exactly the 50 most recent. */
  lemma SixtyEntriesKeepFifty(s: QuestState)
    requires |s.log| == 60
    ensures Save(s).log == s.log[10..]
    ensures |Save(s).log| == 50
  {
  }

  // ----- properties relating several calls -----

  /** A quest that was just started cannot be started again while it is
      active, even when it is repeatable. */
  lemma StartTwiceRefused(cat: Catalog, s: QuestState, id: QuestId, clk: Clock, clk2: Clock)
    requires StartQuest(cat, s, id, clk).1
    ensures StartQuest(cat, StartQuest(cat, s, id, clk).0, id, clk2) == (StartQuest(cat, s, id, clk).0, false)
  {
    var s1 := StartQuest(cat, s, id, clk).0;
    assert s1.active[|s.active|].id == id;
  }

  /** One event advances one objective: with two quests waiting for any
      forage, a single `collect` advances only the older quest's objective. */
  lemma OneEventOneObjective()
    ensures var o := Objective("find", Collect, "any_forage", 3, 0, None);
            var s := QuestState([Instance("q1", [o], 1, 0), Instance("q2", [o], 1, 0)], [], []);
            var r := Advance(s, Collect, "wild_berries", 1).0;
            && r.active[0].objectives[0].current == 1
            && r.active[1] == s.active[1]
  {
    var o := Objective("find", Collect, "any_forage", 3, 0, None);
    assert StartsWith(o.target, WildcardPrefix) by {
      assert o.target[..4] == "any_";
    }
  }

  /** An objective that is already full still absorbs a matching event, so
      a later quest waiting for the same event gets nothing. */
  lemma FullObjectiveAbsorbsEvent()
    ensures var full := Objective("give", Give, "stray_dog", 1, 1, Some("milk"));
            var open := Objective("give", Give, "stray_dog", 1, 0, Some("milk"));
            var s := QuestState([Instance("q1", [full], 1, 0), Instance("q2", [open], 1, 0)], [], []);
            var r := Advance(s, Give, "stray_dog", 1);
            && r.1 == Some((0, 0))
            && r.0 == s
  {
    var full := Objective("give", Give, "stray_dog", 1, 1, Some("milk"));
    var s := QuestState([Instance("q1", [full], 1, 0), Instance("q2", [full.(current := 0)], 1, 0)], [], []);
    assert FindMatch(s.active, Give, "stray_dog") == Some((0, 0));
    FullMatchChangesNothing(s, Give, "stray_dog", 1);
  }


  /** When the first match is already full, a non-negative event changes
      nothing at all, yet it still counts as matched. */
  lemma FullMatchChangesNothing(s: QuestState, kind: EventKind, target: string, amount: int)
    requires amount >= 0
    requires FindMatch(s.active, kind, target).Some?
    requires var (i, j) := FindMatch(s.active, kind, target).value;
             s.active[i].objectives[j].current == s.active[i].objectives[j].count
    ensures Advance(s, kind, target, amount) == (s, FindMatch(s.active, kind, target))
  {
    var (i, j) := FindMatch(s.active, kind, target).value;
    var objs := s.active[i].objectives;
    assert objs[j := Progressed(objs[j], amount)] == objs;
    assert s.active[i := s.active[i].(objectives := objs)] == s.active;
  }

  /** The finished count reaches the total exactly when the quest is
      complete, so a progress query agrees with the completion test. */
  lemma ProgressAgreesWithCompletion(s: QuestState, id: QuestId)
    requires IsActive(s, id)
    ensures Progress(s, id).Some?
    ensures Progress(s, id).value.0 == Progress(s, id).value.1
            <==> IsComplete(s.active[FindActive(s.active, id).value])
  {
  }
}

