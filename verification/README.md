# Pahadi Tales quest core, modelled in Dafny

This project models the quest engine of the Pahadi Tales browser RPG (`QuestManager` in
`rpg-vibe-2025/js/systems/quest.js`) together with the ledgers it feeds and is fed by. The
modules are:

- `Inventory`: the bag and purse.
- `Player`: XP, level, energy and health.
- `Social`: relationship standing.
- `Pets`: the companion roster.
- `Crafting`: the recipe book.
- `World`: areas, forage timers and NPC schedules.
- `Game`: the wiring in `game.js` between the engine and the other modules.

The program's mutable singletons become immutable datatypes. Every operation becomes a pure
function that returns the new state with the source's return value. Time (`Date.now()`, the
game day and the game hour), the random forage pick and the player's position are
parameters.

The engine itself (module `Quests`) has four parts:

- Gated starts: an unknown id, a missing prerequisite, an already active quest and a
  completed one-shot quest are each refused.
- The objective scan: the first matching objective in start order, then objective order, is
  advanced by `min(current + amount, count)`.
- Retirement of completed quests, with unlocks only logged.
- Progress queries, save/load of the last 50 log entries, and branching choices.

Completion delivers rewards, and an added item raises a `collect` event that may complete
another quest. Module `Game` models that cycle as one mutually recursive group: `AddItem`,
`UpdateObjective`, `CompleteQuest`, `GrantRewards` and `GrantItems`. The group terminates
because every completion removes an active quest and nothing in the group starts one. Every
member of the group preserves one shared invariant, `Keeps`:

- the active list never grows and gains no id;
- active ids stay unique;
- the completed list and the log are only appended to;
- only quests that were active become completed;
- the catalog still knows every active quest;
- the slot cap and distinct pets survive;
- for non-negative amounts, progress stays within `0..count`.

Points where the code's behaviour is easy to misread:

- **Event matching.** `updateObjective` returns after the first match over all active
  quests (quest.js:350-368), so one event advances exactly one objective in the whole
  engine, not one per quest. An already full objective still absorbs the event
  (`Quests.Advance`, `Game.GiftAbsorbedByFullObjective`).
- **The quest hook.** `Inventory.addItem`, `craft` and `changeArea` report to
  `window.QuestManager`, which none of the files assigns (`QuestManager` is only exported
  and imported). `Game.questHook` says whether that global is installed. `tryInteract`,
  `tryForage` and `handleNPCInteraction` call the imported engine directly, so they always
  report.
- **The friendship sink.** `window.RelationshipManager` is not defined anywhere, so
  friendship rewards reach no ledger. `Game.friendship` is None in that case; when a manager
  is installed it records the `(npc, amount)` calls in order.
- **Unknown definitions.** Completing an active quest whose id has no catalog entry throws
  in the source (`questDef.repeatable` of undefined). The members that complete quests
  therefore require `Known`: every active id has a definition.

## Model

| member | source | states |
|---|---|---|
| Player.AddXP | rpg-vibe-2025/js/engine/game.js:207-218 | one award raises the level by at most one, exactly when XP reaches `level*100`; lifetime XP grows by the award; each level adds +10 max energy and +5 max health |
| Player.RestoreEnergy | rpg-vibe-2025/js/engine/game.js:219 | energy rises by the amount but never above the maximum; nothing else changes |
| Player.RestoreHealth | rpg-vibe-2025/js/engine/game.js:220 | health rises by the amount but never above the maximum; nothing else changes |
| Player.UseEnergy | rpg-vibe-2025/js/engine/game.js:221 | succeeds exactly when enough energy is held, then subtracts it; otherwise no change |
| Player.OneLevelPerAward | rpg-vibe-2025/js/engine/game.js:207-218 | 350 XP at level 1 gives level 2 with 250 XP left, already past level 2's bar |
| Player.AwardsAccumulate | rpg-vibe-2025/js/engine/game.js:207-218 | two awards in a row lose no XP at a level boundary |
| Inventory.StoreItem | rpg-vibe-2025/js/systems/inventory.js:92-96 | fails unchanged exactly for an unknown item or a new stack beyond 30 slots; otherwise the count is `min(count+qty, stackSize or 99)` and other stacks and coins are untouched |
| Inventory.StoreEach | rpg-vibe-2025/js/systems/inventory.js:92-96 | storing one unit of each listed item in order leaves unlisted items and the purse untouched |
| Inventory.StoreEachIgnoresCoins | rpg-vibe-2025/js/systems/inventory.js:92-96 | storing never reads the purse: the bag is the same over any purse |
| Inventory.RemoveItem | rpg-vibe-2025/js/systems/inventory.js:101-106 | succeeds exactly when `qty` is held; subtracts exactly `qty`, deletes an emptied stack, touches nothing else |
| Inventory.AddCoins | rpg-vibe-2025/js/systems/inventory.js:110 | the purse changes by exactly the amount; items untouched |
| Inventory.RemoveCoins | rpg-vibe-2025/js/systems/inventory.js:111 | refuses to overdraw; otherwise pays exactly the amount; a non-negative purse stays non-negative |
| Inventory.UseItem | rpg-vibe-2025/js/systems/inventory.js:113-122 | only a held FOOD item is used; one unit is consumed; energy becomes `min(maxEnergy, energy + item energy)` when the item has energy, health likewise, and nothing else about the player changes |
| Inventory.Load | rpg-vibe-2025/js/systems/inventory.js:126 | each present key replaces its field, absent keys keep the old value |
| Inventory.SaveLoadRoundTrip | rpg-vibe-2025/js/systems/inventory.js:125-126 | a saved bag and purse load back exactly, over any state |
| Inventory.StoreKeepsSlotCap | rpg-vibe-2025/js/systems/inventory.js:88-96 | adding never grows the bag past 30 stacks |
| Inventory.StoreKeepsPositive | rpg-vibe-2025/js/systems/inventory.js:92-96 | adding a positive quantity leaves no empty or negative stack |
| Inventory.RemoveKeepsPositive | rpg-vibe-2025/js/systems/inventory.js:101-106 | removing leaves no empty or negative stack |
| Inventory.RemoveUndoesStore | rpg-vibe-2025/js/systems/inventory.js:92-106 | removing what was just added (unclamped) restores the bag exactly |
| Social.GetRelationship | rpg-vibe-2025/js/systems/social.js:24-29 | returns the stored record, creating the first-contact record only when none exists |
| Social.WalkMatchesExpected | rpg-vibe-2025/js/systems/social.js:10-18 | the threshold walk equals the independent ladder definition `ExpectedStatus` for every XP and status |
| Social.UpdateStatus | rpg-vibe-2025/js/systems/social.js:38-56 | the new status is `ExpectedStatus`, reported changed exactly when it differs; other NPCs untouched |
| Social.AddXP | rpg-vibe-2025/js/systems/social.js:31-36 | XP grows by exactly the amount and the status is the ladder's for the new XP |
| Social.CanDate | rpg-vibe-2025/js/systems/social.js:58-61 | true exactly from 200 XP when not already Partner or Spouse |
| Social.StartDating | rpg-vibe-2025/js/systems/social.js:63-71 | succeeds exactly when dating is possible, making the NPC a Partner with 50 more XP |
| Social.NoAutomaticCommitment | rpg-vibe-2025/js/systems/social.js:38-56 | XP alone never makes a Partner or a Spouse |
| Social.PartnerFallsBack | rpg-vibe-2025/js/systems/social.js:38-56 | a Partner with 200 to 349 XP is demoted to Best Friend by the next update |
| Social.DatingDoesNotSurviveUpdate | rpg-vibe-2025/js/systems/social.js:38-71 | dating from 200 XP gives a Partner at 250 XP whom the next update demotes |
| Social.GetRelationshipIdempotent | rpg-vibe-2025/js/systems/social.js:24-29 | a second access finds the record the first created |
| Pets.Find | js/systems/pets.js:81 | the first owned pet of the species, or none when no pet has it |
| Pets.AdoptPet | js/systems/pets.js:80-98 | refuses an owned or unknown species; otherwise appends base stats with affection 0, becomes active only if none was, keeps species distinct, and leaves the species owned |
| Pets.Fed | js/systems/pets.js:105-110 | favourite food: hunger -40, happiness +15, affection +5; other food -25, +5, +2; each stat is exactly the changed value, except that hunger is floored at 0 and the others capped at 100; nothing else about the pet changes |
| Pets.FeedPet | js/systems/pets.js:100-113 | needs an owned pet and held food; consumes exactly one unit and changes only that pet |
| Pets.PetInteract | js/systems/pets.js:115-122 | happiness becomes exactly `min(100, happiness + 10)` and affection `min(100, affection + 3)` on that pet; every other pet and field is unchanged |
| Pets.SetActivePet | js/systems/pets.js:124-128 | only an owned pet can become active |
| Pets.Load | js/systems/pets.js:164-167 | owned pets are replaced when present; a non-empty active id is looked up among the loaded pets, and the active pet is cleared when it names none of them |
| Pets.AdoptKeepsActiveOwned | js/systems/pets.js:80-98 | adoption keeps the active pet among the owned ones |
| Pets.SaveLoadRoundTrip | js/systems/pets.js:157-167 | a roster with an owned active pet loads back exactly |
| Pets.LoadKeepsStaleActive | js/systems/pets.js:157-167 | a save without an active pet keeps the active pet of the roster it is loaded over |
| Crafting.LearnRecipe | js/systems/crafting.js:93-99 | adds exactly an existing, not yet known recipe; the book stays duplicate-free |
| Crafting.AllHeld | js/systems/crafting.js:104-106 | true exactly when every ingredient is held in its quantity |
| Crafting.CanCraft | js/systems/crafting.js:101-108 | the recipe exists, is known, and every ingredient is held |
| Crafting.RemoveIngredients | js/systems/crafting.js:114-117 | items no ingredient names, and the purse, are untouched |
| Crafting.RemoveIngredientsExact | js/systems/crafting.js:114-117 | with distinct held ingredients, each count drops by exactly its quantity |
| Crafting.AvailableRecipes | js/systems/crafting.js:131-136 | exactly the known recipes in learning order, each flagged with `CanCraft` |
| Crafting.Load | js/systems/crafting.js:139 | the book is replaced only when the key is present |
| World.ChangeArea | js/systems/world.js:372-390 | unknown or locked areas are refused unchanged, naming the missing item; otherwise the area becomes current and is recorded visited once |
| World.CanForage | js/systems/world.js:396-406 | a never-foraged spot is ready; otherwise it must exist and its respawn hours must have passed |
| World.Forage | js/systems/world.js:408-425 | a ready spot is stamped with the clock and yields one of its own items; otherwise nothing changes |
| World.EffectiveHour | js/systems/world.js:431 | a missing or zero hour reads as 12 |
| World.FirstWindow | js/systems/world.js:436-441 | the first schedule window covering the hour |
| World.Filter | js/systems/world.js:432-443 | keeps exactly the listed NPCs a schedule places here, and no more entries than were listed |
| World.FilterAppend | js/systems/world.js:432 | the filter of a concatenation is the concatenation of the filters, so listing order is kept |
| World.FilterCounts | js/systems/world.js:432-443 | a present NPC is kept as often as it is listed; every other NPC is dropped |
| World.FilterOne | js/systems/world.js:432-443 | a single NPC is kept exactly when the schedule places it here |
| World.NpcsInCurrentArea | js/systems/world.js:427-444 | the area's NPCs that are unscheduled or scheduled here at the effective hour, each as often as the area lists it, and no other NPC |
| World.WrappingWindow | js/systems/world.js:438 | a wrapping window covers exactly the hours outside `[end, start)` |
| World.MidnightReadsAsNoon | js/systems/world.js:431-441 | at midnight an NPC is placed as at noon |
| World.Load | js/systems/world.js:455-460 | each present key replaces its field; an empty current area is ignored |
| World.SaveLoadRoundTrip | js/systems/world.js:446-460 | a world with a named current area loads back exactly |
| Quests.FindActive | rpg-vibe-2025/js/systems/quest.js:332 | the first active instance with the id, or none when no instance has it |
| Quests.PrereqsMet | rpg-vibe-2025/js/systems/quest.js:322-329 | true exactly when every prerequisite is completed |
| Quests.StartQuest | rpg-vibe-2025/js/systems/quest.js:318-348 | succeeds exactly when the four gates pass; a refusal changes nothing; success appends one instance with the catalog objectives and one `started` entry, keeping active ids unique |
| Quests.FirstObjective | rpg-vibe-2025/js/systems/quest.js:354-355 | the first matching objective of one quest, or none exactly when none matches |
| Quests.FindMatch | rpg-vibe-2025/js/systems/quest.js:351-355 | the first match in start order then objective order; none exactly when no active objective matches |
| Quests.Progressed | rpg-vibe-2025/js/systems/quest.js:356 | progress is `current+amount` clamped to `count`, and stays within bounds for non-negative amounts |
| Quests.Advance | rpg-vibe-2025/js/systems/quest.js:350-368 | exactly the first matching objective advances, even when already full; every other instance and objective, the completed list and the log are unchanged |
| Quests.Retire | rpg-vibe-2025/js/systems/quest.js:374-386 | refused exactly when the quest is not active; otherwise the first instance leaves, and the id is recorded completed unless repeatable |
| Quests.LogCompletion | rpg-vibe-2025/js/systems/quest.js:391-399 | each unlock is only logged `unlocked`, in order, then one `completed` entry; active and completed lists untouched |
| Quests.CountDone | rpg-vibe-2025/js/systems/quest.js:455 | at most the objective count, and equal to it exactly when every objective is finished |
| Quests.Progress | rpg-vibe-2025/js/systems/quest.js:451-459 | none exactly for an inactive quest; otherwise finished and total counts, equal exactly when the quest is complete |
| Quests.Choose | rpg-vibe-2025/js/systems/quest.js:477-488 | refused unchanged unless the quest is active and offers the choice; otherwise logs `choice_<id>` and hands back its rewards |
| Quests.KeepLast | rpg-vibe-2025/js/systems/quest.js:466 | the last `min(n, length)` entries, in order |
| Quests.Save | rpg-vibe-2025/js/systems/quest.js:462-468 | active and completed lists as they are, and the most recent 50 log entries |
| Quests.Load | rpg-vibe-2025/js/systems/quest.js:470-474 | each present key replaces its field |
| Quests.SaveLoadRoundTrip | rpg-vibe-2025/js/systems/quest.js:462-474 | a save loads back with everything but log entries older than the last 50 |
| Quests.SixtyEntriesKeepFifty | rpg-vibe-2025/js/systems/quest.js:466 | of 60 log entries a save keeps exactly the 50 most recent |
| Quests.StartTwiceRefused | rpg-vibe-2025/js/systems/quest.js:332 | a quest just started cannot be started again while active, even if repeatable |
| Quests.OneEventOneObjective | rpg-vibe-2025/js/systems/quest.js:350-368 | with two quests waiting for any forage, one event advances only the older one |
| Quests.FullObjectiveAbsorbsEvent | rpg-vibe-2025/js/systems/quest.js:350-368 | a full objective earlier in the scan takes the event and a later open one gets nothing |
| Quests.FullMatchChangesNothing | rpg-vibe-2025/js/systems/quest.js:355-363 | when the first match is already full, the event changes no state yet counts as matched |
| Quests.ProgressAgreesWithCompletion | rpg-vibe-2025/js/systems/quest.js:370-372 | the progress query reports all objectives finished exactly when the completion test holds |
| Game.AddItem | rpg-vibe-2025/js/systems/inventory.js:92-99 | stores as `StoreItem`; with the engine installed, a stored item is followed by one `collect` event for the requested quantity, not the stored amount; keeps the shared invariant |
| Game.UpdateObjective | rpg-vibe-2025/js/systems/quest.js:350-368 | reports a match exactly when some objective matches. An objective that does not finish its quest only advances. One that does hands the advanced state to `CompleteQuest`, which removes that quest's first instance. While active ids are unique, the quest is then no longer active |
| Game.CompleteQuest | rpg-vibe-2025/js/systems/quest.js:374-401 | succeeds exactly for an active quest, which leaves the active list for good. Without the engine hook: the first instance is removed; the id is recorded completed exactly when the quest is not repeatable; the bag gets one unit of each reward item and the reward coins; lifetime XP grows by the reward XP; friendship calls are appended; the log gains the unlock entries and then the completion. A known reward pet is owned afterwards in every case |
| Game.GrantRewards | rpg-vibe-2025/js/systems/quest.js:403-433 | without the engine hook: the purse grows by exactly the reward coins and the bag gets one unit of each listed item in order; lifetime XP grows by the reward; friendship calls are appended in order; the quest state is untouched; a known pet is owned afterwards |
| Game.GrantPersonal | rpg-vibe-2025/js/systems/quest.js:416-432 | XP, friendship and pet rewards never reach the bag or the quest engine |
| Game.GrantItems | rpg-vibe-2025/js/systems/quest.js:410-414 | without the engine hook the bag is `StoreEach` of the listed items: one unit of each, stored in order, refusals ignored; nothing else changes |
| Game.HandleChoice | rpg-vibe-2025/js/systems/quest.js:477-501 | succeeds exactly for an active quest offering the choice; the choice entry precedes any reward effects; without the hook the quest state gains only that entry, and the bag, purse, lifetime XP and friendship get exactly the choice's rewards; a known reward pet is owned afterwards; objective progress is neither required nor changed |
| Game.Craft | js/systems/crafting.js:110-129 | succeeds exactly when `CanCraft`, otherwise changes nothing; on success it is `Crafted`, followed by exactly one `craft` event for the recipe when the engine is installed |
| Game.Crafted | js/systems/crafting.js:114-123 | without the engine hook: the bag is the ingredient removal with `result x quantity` stored on top, lifetime XP grows by the recipe XP, and nothing but the bag and the player changes; keeps the shared invariant |
| Game.ChangeArea | js/systems/world.js:372-390 | the world changes as `World.ChangeArea`; a refusal changes nothing; on entry with the hook exactly one `location` event for the area follows, without it nothing else changes |
| Game.Forage | js/systems/world.js:408-425 | the world changes as `World.Forage`; a picked item is then added through `addItem`, which without the hook is one unit stored as `StoreItem` |
| Game.FirstHandled | rpg-vibe-2025/js/engine/game.js:1762-1805 | the first interactable in reach whose type is handled |
| Game.TryInteract | rpg-vibe-2025/js/engine/game.js:1758-1807 | A pickup is stored through `addItem(item, 1)` (with its `collect` event when the engine is installed) and then disappears. A refused pickup changes neither the game nor the interactables. Cleaning needs a broom, removes the dirt and reports `interact`/`dhaba_dirt`; without a broom nothing changes. Inspect and read change nothing |
| Game.FirstReadySpot | rpg-vibe-2025/js/engine/game.js:1813-1819 | the first spot of the current area in reach and ready |
| Game.TryForage | rpg-vibe-2025/js/engine/game.js:1809-1832 | at the first ready spot the found item is reported as `collect` for the item and again for `any_forage` |
| Game.PendingGive | rpg-vibe-2025/js/engine/game.js:1838 | the first unfinished `give` objective targeting exactly this NPC |
| Game.GiveWalk | rpg-vibe-2025/js/engine/game.js:1836-1854 | keeps the shared invariant; with no pending gift for the NPC nothing changes |
| Game.HandleNpcInteraction | rpg-vibe-2025/js/engine/game.js:1834-1858 | with no pending gift for the NPC nothing changes; each step is `GiftStep` |
| Game.CompleteTwiceRefused | rpg-vibe-2025/js/systems/quest.js:374-376 | completing the same quest twice: the second call is refused and changes nothing |
| Game.UnlocksAreAdvisory | rpg-vibe-2025/js/systems/quest.js:391-397 | completing a quest never makes another quest active |
| Game.CompletedOnlyFromActive | rpg-vibe-2025/js/systems/quest.js:382-386 | a quest neither active nor completed before any step is neither after it |
| Game.PrerequisiteChain | rpg-vibe-2025/js/systems/quest.js:318-333 | a quest whose prerequisite is an active one-shot quest cannot start before it completes and can right after |
| Game.RepeatableRestarts | rpg-vibe-2025/js/systems/quest.js:333-345 | a repeatable quest can start again right after completion, with fresh objectives |
| Game.ForageCountsTwice | rpg-vibe-2025/js/engine/game.js:1826-1827 | one foraged item advances an `any_forage` objective by two |
| Game.CraftKeepsNoRollback | js/systems/crafting.js:110-129 | when the result cannot be stored, the ingredients are still consumed and craft succeeds |
| Game.GiftAbsorbedByFullObjective | rpg-vibe-2025/js/engine/game.js:1836-1849 | the milk is taken from the bag but a full objective earlier in the scan absorbs the `give` event |
| Game.GiftStep | rpg-vibe-2025/js/engine/game.js:1837-1853 | for any NPC, at the first snapshot quest with a pending gift: a missing item only moves the walk on; a held item loses one unit, then one `give` event is sent, and the walk continues unless it was milk for the stray dog |
| Game.SkipQuiet | rpg-vibe-2025/js/engine/game.js:1837-1839 | a quest with no pending gift for the NPC is passed over unchanged |
| Game.GiftToDogEndsWalk | rpg-vibe-2025/js/engine/game.js:1840-1849 | milk given to the stray dog ends the walk after its one `give` event |

## Left out

- Rendering, input, sound, notifications, dialogue, localisation and the `state` field of an
  instance are left out: they do not affect the quest state.
- Titles, descriptions and `timeCondition` of quests and objectives are left out. The
  engine does not read `timeCondition` when matching.
- The percentage of `getQuestProgress` is left out, because it is floating point.
  `Quests.Progress` returns the two counts it is computed from.
- `getActiveQuests` is left out. Its only use here is the snapshot that
  `Game.HandleNpcInteraction` walks.
- The `nextStage` of a choice is only logged to the console by the source, so it is not
  modelled beyond its field.
- Game.GrantRewards: the `energy` field some rewards carry (the daily meditation quest) is
  never read by `grantRewards`, so it has no effect.
- Game.TryForage: the forage call it makes belongs to the rpg game's own world module,
  which is not part of this model. Its result `{itemId, quantity}` is a parameter, and its
  effects on the world and the bag are not modelled. The forage of `js/systems/world.js` is
  `Game.Forage`.
- Game.TryInteract: the interactables belong to the rpg game's area data, which is not part
  of this model, so they are a parameter. The player's position is taken as integers, while
  the source's diagonal movement can make it fractional.
- Game.FirstReadySpot: the readiness test `tryForage` calls belongs to the rpg game's own
  world module, which is not part of this model; `World.CanForage` of `js/systems/world.js`
  and its area catalog stand in for it, as they do for `getCurrentArea`.
- Game.HandleNpcInteraction: each quest of the start-time snapshot is looked up by id in the
  live state. A quest completed during the walk has only finished objectives, so it is
  passed over, which is what happens to the snapshot's shared objective objects too. This
  matches the source only while active ids are unique (`Quests.UniqueActive`, which every
  operation keeps). Duplicates can only come from a loaded save; the source would then walk
  each instance, while the model finds the first one for both snapshot entries.
- Game.CompleteQuest and the other members of the group require `Known`. The source throws
  on an active quest with no definition, and the model excludes that case instead of
  modelling the crash.
- Pets.FeedPet: for an owned pet of a species with no definition, the source throws after
  the inventory check; the model reports failure with no change instead.
- `PetManager.update` (hunger drift over time) and pet naming are left out: they use
  floating point and localisation.
- `getActivePetBonus` is left out, because it is a plain lookup of a field.
- The pet, world and crafting managers imported by the rpg game come from files that are not
  part of this model. The ledgers here are those of `js/systems/pets.js`,
  `js/systems/world.js` and `js/systems/crafting.js`. `Game.Craft` and `Game.Crafted` wire that
  crafting system to the rpg game's inventory, player and quest engine, as its `window.*`
  lookups do.
- The shops, fishing and furniture placement of `game.js` are left out. They are outside the
  quest core, and they do more than call modelled operations. A purchase also lowers the
  shop's stock. Furniture placement calls the rpg game's own world module, which is not part
  of this model.
- The discovered-secrets list of `js/systems/world.js` is only saved and loaded here. No shown
  code adds to it.
- Social save/load is left out: it copies the relationship map as a whole.
- Quests: negative event amounts are allowed. Objective bounds are proved only for
  non-negative amounts, because a negative amount can push progress below zero in the
  source too.
