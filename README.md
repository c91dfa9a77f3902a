# A verified model of a text RPG's game rules

This project models the rules engine of a small text role-playing game written in Python. It covers:

- characters: creation, experience and level-ups, gold, healing, revival and save-record validation;
- the inventory, item effects, equipment and the shop;
- quests: accepting, completing, abandoning, and the queries over the quest catalog;
- turn-based combat against goblins, orcs and dragons;
- parsing the quest and item data files.

Each Python source file becomes one Dafny module:

| module | source file | form |
|---|---|---|
| `Characters` | character_manager.py | the character dictionary is `class Character`; each operation is a method tied to a pure function |
| `Inventory` | inventory_system.py | methods on `Character`, each tied to a pure function |
| `Effects` | inventory_system.py (`parse_effect_string`, `apply_stat_effect`) | pure parsing; the stat update is a method |
| `Quests` | quest_handler.py | methods on `Character`, each tied to a pure function; the queries are functions |
| `Combat` | combat_system.py | `class Enemy` and `class SimpleBattle` with the battle loop as a method |
| `GameData` | game_data.py | pure functions: line and block parsing, validation, splitting content into blocks |
| `Outcomes`, `Text`, `Lists` | (shared) | the exceptions as an error datatype; `str.strip`, `lower`, `split` and `int`; list helpers |

The character dictionary is a class with one field per key. `Snapshot()` gives the value view, `CharacterData`.

Each state-changing operation is specified by a pure function. That function returns a `Step(after, result)`:

- `after` is the record after the call, also when the call raised part-way through.
- `result` is the return value, or the exception as `Err`.

The method's postcondition equates the new state and the result with that function. The lemmas state what the function promises.

Some behaviours of the code that are easy to miss:

- Accepting a quest that is already active raises "requirements not met", not a separate error.
- Completing a quest checks the catalog before the active list.
- Completing a quest adds experience without running the level-up loop.
- After a successful escape, the round's enemy turn raises "combat not active". The battle therefore ends with that error, not with an "escaped" result.
- An unknown class using a special ability gets the message "No special ability available.", not an error.

## Model

| member | source | states |
|---|---|---|
| Characters.CreateCharacter | character_manager.py:25-68 | fails with InvalidCharacterClass exactly when the class is not Warrior, Mage, Rogue or Cleric; a new character is level 1 with 0 experience, 100 gold, full health, and an empty inventory and quest lists; its two equipment slots are empty |
| Characters.CreateCharacterTable | character_manager.py:45-52 | each class starts with its own health, strength and magic row (120/15/5, 80/8/20, 90/12/10, 100/10/15) |
| Characters.LevelUpsShape | character_manager.py:239-249 | after the loop, experience is below level × 100; each level gained adds 10 max health, 2 strength and 2 magic; health is restored to the maximum only if a level was gained; nothing else changes |
| Characters.LevelUpsConservesXp | character_manager.py:239-241 | the experience spent by the loop equals the cost of the levels climbed; none is lost or invented |
| Characters.XpForLevelsClosedForm | character_manager.py:239-240 | climbing from level a to level b costs 50·(b(b−1) − a(a−1)) experience |
| Characters.GainExperienceFromStart | character_manager.py:233-249 | a level-1 character gaining x experience ends at a level L with 50·L·(L−1) plus the leftover equal to x |
| Characters.GainExperienceKeepsSettled | character_manager.py:233-249 | a dead character raises CharacterDead and is unchanged; otherwise a settled character stays settled, and level, strength, magic and max health never go down |
| Characters.GainExperience | character_manager.py:219-249 | the loop as written, with its invariant, produces exactly the state and result of the level-up specification |
| Characters.AddGoldNeverNegative | character_manager.py:262-266 | gold never goes negative; the call succeeds exactly when the amount does not overdraw, and it returns the new total; only gold changes |
| Characters.AddGoldThenSpend | character_manager.py:262-266 | adding an amount and then spending it restores the record |
| Characters.AddGold | character_manager.py:251-266 | the new state and return value are those of the gold specification |
| Characters.HealBounds | character_manager.py:279-287 | healing never passes max health; the amount returned is the actual change, between 0 and the amount asked; enough healing reaches the maximum |
| Characters.Heal | character_manager.py:270-287 | the new state and amount healed are those of the heal specification |
| Characters.IsCharacterDead | character_manager.py:291-298 | a character counts as dead exactly when revival would bring it back |
| Characters.ReviveOnlyTheDead | character_manager.py:298-313 | revival happens exactly for a dead character and sets health to half of max health, rounded down; a living character is unchanged |
| Characters.Revive | character_manager.py:302-313 | the new state and result are those of the revive specification |
| Characters.FirstFailing | character_manager.py:349-358 | returns nothing exactly when every listed field has the wanted type; otherwise the first field that does not |
| Characters.ValidateCharacterData | character_manager.py:321-360 | succeeds exactly when every required field is present, the numeric fields are integers and the list fields are lists; a missing-field error names the first absent required field in list order; with every field present, a non-integer error names the first numeric field that is not an integer, and a not-a-list error the first list field that is not a list |
| Characters.RecordsValidate | character_manager.py:321-360 | a save dictionary that holds each field of a record with its own type (numbers as integers, lists as lists) passes validation |
| Characters.MissingFieldReported | character_manager.py:339-341 | removing one required field from a valid record is reported as exactly that field missing |
| Lists.FirstMissing | character_manager.py:339-341 | returns nothing exactly when every field is present; otherwise the first field in list order that is absent |
| Effects.Lookup | inventory_system.py:161 | a stat is found exactly when the effect dictionary holds it |
| Effects.Put | inventory_system.py:161 | assigning a stat adds it to the keys; a new stat goes last; the keys stay unique |
| Effects.PutLookup | inventory_system.py:161 | after an assignment the stat reads the new amount and every other stat reads as before |
| Effects.ParsePairs | inventory_system.py:158-161 | the piece loop succeeds exactly when every piece is skipped or has an integer value; the only error is ValueError; the keys stay unique |
| Effects.ParseEffectString | inventory_system.py:153-162 | the empty string gives no effects; otherwise it succeeds exactly when every comma-separated piece parses; the only error is ValueError; the result never repeats a stat |
| Effects.ParseEffects | inventory_system.py:153-162 | the loop as written computes the same dictionary as the specification |
| Effects.ParsePairsLookup | inventory_system.py:158-161 | each stat of the parsed dictionary holds the amount of the last piece naming it, or its earlier value |
| Effects.ParseEffectStringLastWins | inventory_system.py:156-161 | a stat holds the amount of the last piece that names it, and a stat no piece names is absent |
| Effects.PairEntryRender | inventory_system.py:159-161 | a piece written as `stat:value` parses back to that stat and value |
| Effects.EffectRoundTrip | inventory_system.py:153-162 | writing an effect dictionary out as `stat:value,...` and parsing it gives the same dictionary, in the same order |
| Effects.LaterDuplicateWins | inventory_system.py:158-161 | `k:a,k:b` parses to the single entry k = b |
| Effects.ClampHealth | inventory_system.py:168-169 | the result never exceeds max health and, for a max health of at least 0, lies in [0, max health]; a value already in range is kept, a value at or above max health becomes max health, and a value at or below 0 becomes 0 |
| Effects.ApplyStatTo | inventory_system.py:164-169 | raises TypeError, changing nothing, exactly when the key names a field of the record that holds no integer (name, class, inventory, the two quest lists, the two equipment slots); otherwise adds the amount to that one stat, with a missing stat counting as 0 and health clamped, and leaves the name, class, inventory, quests and slots alone |
| Effects.ApplyStatOthersUnchanged | inventory_system.py:164-167 | a stat update leaves every other stat reading as before |
| Effects.ApplyStatKeepsWellKeyed | inventory_system.py:164-167 | a stat update never files a named field or a non-integer key among the extra stats |
| Effects.StatsView | inventory_system.py:164-167 | the integer view of the character holds the named stats and the extra ones, each with its value |
| Effects.ApplyStatAgrees | inventory_system.py:164-169 | the record-level update is the dictionary-level one: both raise together, and otherwise the new record's integer view is the updated dictionary |
| Effects.ApplyStatKeepsHealthInRange | inventory_system.py:164-169 | a change to any stat other than max health keeps health in [0, max health] |
| Effects.ApplyEffectsOutcome | inventory_system.py:64-65 | the effect loop succeeds exactly when no effect names a non-integer key, and fails only with TypeError; the non-stat fields never change, and the extra stats stay well keyed |
| Effects.ApplyEffectsAdds | inventory_system.py:84-91 | effects on integer stats other than health move every stat by the sum of its amounts, subtracted when negated |
| Effects.ApplyEffectsUndo | inventory_system.py:84-91 | applying effects and then the same effects negated restores every stat and every other field |
| Effects.ApplyEffectsKeepHealthInRange | inventory_system.py:64-65 | effects that leave max health alone keep health within [0, max health] |
| Effects.ApplyStatEffect | inventory_system.py:164-169 | the field update leaves the record exactly as the record-level specification says, or raises TypeError with nothing changed |
| Effects.ApplyEffectList | inventory_system.py:64-65 | the loop leaves the record and result exactly as the effect specification says |
| Inventory.HasItem | inventory_system.py:40-41 | an item is held exactly when its count is above 0 |
| Inventory.CountItem | inventory_system.py:43-44 | the count is the number of copies in the inventory, as a multiset, and never more than the inventory's length |
| Inventory.SpaceRemaining | inventory_system.py:46-47 | within the bound the space lies in [0, 20]; there is space left exactly when adding any item would succeed |
| Inventory.AddItemKeepsBound | inventory_system.py:28-32 | adding succeeds exactly when there is room, so the inventory never exceeds 20; a success puts the id at the end and uses one slot; a failure raises InventoryFull with nothing changed |
| Inventory.RemoveItemTakesOneCopy | inventory_system.py:34-38 | removing succeeds exactly when the id is held and takes out its first copy, keeping the order of the rest; otherwise it raises ItemNotFound with nothing changed |
| Inventory.AddThenRemove | inventory_system.py:28-38 | adding an item not held and removing it gives the record back |
| Inventory.ClearEmptiesInventory | inventory_system.py:49-52 | clearing returns every item held, frees all 20 slots and changes nothing else |
| Inventory.AddItem | inventory_system.py:28-32 | the new state and result are those of the add specification |
| Inventory.RemoveItem | inventory_system.py:34-38 | the new state and result are those of the remove specification |
| Inventory.ClearInventory | inventory_system.py:49-52 | the new state and returned items are those of the clear specification |
| Inventory.UseItemOutcome | inventory_system.py:58-66 | the validations fail in order: ItemNotFound, then InvalidItemType, then ValueError, each with nothing changed; a use succeeds exactly when the effects parse and name only integer keys, and it applies the effects and uses up one copy |
| Inventory.UseItemAddsEffects | inventory_system.py:63-66 | a consumable whose effects avoid health and non-integer keys moves every stat by exactly its amounts |
| Inventory.UseItemKeepsHealthInRange | inventory_system.py:63-65 | using an item that does not touch max health keeps health in [0, max health] |
| Inventory.UseItem | inventory_system.py:58-68 | the new state and result are those of the use specification |
| Inventory.SetSlot | inventory_system.py:89 | setting the weapon slot stores the value given there and changes no other field, and likewise for the armor slot |
| Inventory.TakeOffShape | inventory_system.py:84-86 | taking an item off changes only stats and the inventory, and a success returns one copy of the item to the end of the inventory |
| Inventory.PutOnShape | inventory_system.py:89-92 | putting an item on sets the slot, and a success takes one copy out of the inventory |
| Inventory.PutOnAdds | inventory_system.py:89-92 | putting on an item whose effects avoid health and non-integer keys succeeds and adds its amounts to every stat |
| Inventory.TakeOffSubtracts | inventory_system.py:84-86 | taking off such an item with room in the inventory succeeds, returns it and subtracts its amounts |
| Inventory.EquipMovesItems | inventory_system.py:74-93 | equipping raises ItemNotFound, then InvalidItemType, with nothing changed; a success puts the item in the slot and, as a multiset, the inventory loses the new item and regains the one replaced |
| Inventory.UnequipReturnsItem | inventory_system.py:116-126 | an empty slot returns None with nothing changed; otherwise a success clears the slot, returns the item's id and puts it back at the end of the inventory |
| Inventory.EquipIntoEmptySlot | inventory_system.py:74-93 | equipping into an empty slot succeeds, fills the slot, takes one copy out of the inventory and adds the item's amounts to every stat |
| Inventory.UnequipSubtracts | inventory_system.py:116-126 | unequipping a filled slot with room in the inventory succeeds, returns the item's id, empties the slot, puts the item back at the end and subtracts its amounts |
| Inventory.EquipThenUnequip | inventory_system.py:74-126 | equipping into an empty slot and unequipping again restores every stat, the inventory as a multiset, and the empty slot |
| Inventory.SetSlotOf | inventory_system.py:89 | the field update matches the slot specification |
| Inventory.TakeOffItem | inventory_system.py:84-86 | the new state and result are those of the take-off specification |
| Inventory.PutOnItem | inventory_system.py:89-92 | the new state and result are those of the put-on specification |
| Inventory.Equip | inventory_system.py:74-93 | the new state and result are those of the equip specification |
| Inventory.EquipWeapon | inventory_system.py:74-93 | the equip specification on the weapon slot |
| Inventory.EquipArmor | inventory_system.py:95-114 | the equip specification on the armor slot |
| Inventory.UnequipItem | inventory_system.py:116-126 | the new state and result are those of the unequip specification |
| Inventory.PurchaseOutcome | inventory_system.py:132-139 | a purchase succeeds exactly when gold covers the cost and there is room; lack of gold is reported before a full inventory; a refusal changes nothing; a success pays the cost and adds one copy; gold never goes negative |
| Inventory.SaleOutcome | inventory_system.py:141-147 | a sale succeeds exactly when the id is held; it pays half the cost rounded down and takes out one copy; otherwise it raises ItemNotFound with nothing changed |
| Inventory.BuyThenSell | inventory_system.py:132-147 | buying an item not held and selling it straight back restores the inventory and costs the cost minus half the cost |
| Inventory.PurchaseItem | inventory_system.py:132-139 | the new state and result are those of the purchase specification |
| Inventory.SellItem | inventory_system.py:141-147 | the new state and result are those of the sale specification |
| Quests.CanAcceptQuest | quest_handler.py:114-120 | true exactly when accepting the quest would succeed |
| Quests.CanAcceptIffAccepted | quest_handler.py:114-120 | the eligibility check agrees with accepting: a quest can be accepted exactly when accepting succeeds; a refusal changes nothing; a success only appends the id to the active list |
| Quests.AcceptErrorOrder | quest_handler.py:25-44 | each refusal reports its reason in the source's order: QuestNotFound, InsufficientLevel, an unmet prerequisite, already completed, and already active (reported as requirements not met) |
| Quests.AcceptQuest | quest_handler.py:23-48 | the new state and result are those of the accept specification |
| Quests.RewardItemsPrefix | quest_handler.py:69-76 | the reward items given are exactly the first ones that fit, appended in order to the inventory |
| Quests.CompleteOutcome | quest_handler.py:50-82 | QuestNotFound comes before QuestNotActive, each with nothing changed; a success moves the quest from active to the end of completed, adds exactly the returned experience and gold without a level change, and adds the returned items to the inventory |
| Quests.CompleteShape | quest_handler.py:58-66 | a successful completion changes only the quest lists, experience, gold and inventory |
| Quests.AbandonOutcome | quest_handler.py:84-88 | abandoning succeeds exactly for an active quest and only removes one occurrence of it from the active list; otherwise it raises QuestNotActive with nothing changed |
| Quests.AddRewardItems | quest_handler.py:69-76 | the loop's new state and list of given items are those of the reward specification |
| Quests.CompleteQuest | quest_handler.py:50-82 | the new state and result are those of the completion specification |
| Quests.AbandonQuest | quest_handler.py:84-88 | the new state and result are those of the abandon specification |
| Quests.AcceptKeepsQuestLists | quest_handler.py:39-47 | accepting keeps the active list free of duplicates and disjoint from the completed list, and leaves the completed list alone |
| Quests.CompleteKeepsQuestLists | quest_handler.py:55-62 | completing keeps the quest-list invariant and only extends the completed list |
| Quests.AbandonKeepsQuestLists | quest_handler.py:85-87 | abandoning keeps the quest-list invariant and leaves the completed list alone |
| Quests.KnownIds | quest_handler.py:96 | the ids kept are exactly the listed ids the catalog knows |
| Quests.KnownIdsAppend | quest_handler.py:96-100 | the query keeps list order: an id added at the end of the list appears at the end of the result |
| Quests.GetActiveQuests | quest_handler.py:94-96 | no more entries than active ids; a quest is listed exactly when an active id the catalog knows names it |
| Quests.GetCompletedQuests | quest_handler.py:98-100 | no more entries than completed ids; a quest is listed exactly when a completed id the catalog knows names it |
| Quests.AcceptedQuestListedLast | quest_handler.py:94-96 | accepting a quest adds its catalog entry at the end of the active quests |
| Quests.CompletedQuestListedLast | quest_handler.py:98-100 | completing a quest adds its catalog entry at the end of the completed quests |
| Quests.AvailableQuestIds | quest_handler.py:102-104 | only catalog quests are available, and none that is active, completed or above the character's level |
| Quests.AvailableMeansAcceptable | quest_handler.py:102-104 | a quest is listed as available exactly when accepting it would succeed |
| Quests.IsQuestCompleted | quest_handler.py:106-108 | a completed quest cannot be accepted again, and with valid quest lists it is not active |
| Quests.IsQuestActive | quest_handler.py:110-112 | a quest is active exactly when abandoning it succeeds, and an active quest cannot be accepted again |
| Quests.CompletedQuestStatus | quest_handler.py:106-112 | after a completion, the quest counts as completed and no longer as active |
| Quests.GetTotalQuestRewardsEarned | quest_handler.py:130-133 | when no quest has a negative reward, neither total is negative |
| Quests.TotalsAppend | quest_handler.py:130-133 | completing one more known quest adds its reward to each total |
| Quests.CompletionAddsToTotals | quest_handler.py:130-133 | completing a quest raises the reward totals by exactly the experience and gold it paid |
| Quests.GetQuestsByLevel | quest_handler.py:135-136 | a quest is listed exactly when its required level lies in the inclusive range |
| Quests.QuestsByLevelSplit | quest_handler.py:135-136 | two adjacent ranges together list exactly the quests of the joined range, and no quest twice |
| Quests.QuestsByLevelEmptyRange | quest_handler.py:135-136 | a range whose minimum exceeds its maximum lists nothing |
| Quests.AvailableWithinLevel | quest_handler.py:102-136 | every available quest is listed by level between a floor under every required level and the character's level |
| Quests.ValidateQuestPrerequisites | quest_handler.py:138-143 | succeeds exactly when every prerequisite is "NONE" or a known quest; otherwise raises QuestNotFound |
| Combat.CreateEnemy | combat_system.py:24-67 | succeeds exactly for goblin, orc and dragon, with full health; any other type raises InvalidTarget |
| Combat.CreateEnemyTable | combat_system.py:36-65 | the three enemies' stats and rewards as tabulated |
| Combat.EnemyTypeForLevel | combat_system.py:78-86 | the type is always a known enemy: goblin exactly up to level 2, dragon exactly from level 6, orc in between |
| Combat.GetRandomEnemyForLevel | combat_system.py:68-86 | every level gets an enemy, at full health |
| Combat.EnemyForLevelMonotone | combat_system.py:71-86 | every level gets an enemy, and a higher level never gets a weaker or less rewarding one |
| Combat.VictoryRewardsGrowWithLevel | combat_system.py:330-339 | the rewards for beating the enemy of a level are positive and never smaller at a higher level |
| Combat.CanCharacterFight | combat_system.py:318-328 | a character can fight exactly when it is not dead |
| Combat.CheckBattleEnd | combat_system.py:208-220 | the battle goes on exactly while the enemy has health and the character can fight; the enemy wins exactly when the character is dead and the enemy is not |
| Combat.CalculateDamage | combat_system.py:187-197 | damage is at least 1, at least the attacker's strength minus a quarter of the defender's, and equal to it unless that is below 1 |
| Combat.DamagedHealth | combat_system.py:200-206 | health after damage is never negative: it is the difference, or 0 |
| Combat.SpecialAbilityEffects | combat_system.py:244-315 | warrior, mage and rogue abilities deal their damage to the enemy only; the cleric heals by up to 30 without passing max health and leaves the enemy alone; other classes change nothing |
| Combat.ClericHealInRange | combat_system.py:308-315 | a heal keeps health between its old value and max health |
| Combat.WarriorPowerStrike | combat_system.py:274-280 | deals twice the strength, changing only the enemy's health |
| Combat.MageFireball | combat_system.py:284-290 | deals twice the magic, changing only the enemy's health |
| Combat.RogueCriticalStrike | combat_system.py:295-305 | deals three times the strength on a critical draw and the strength otherwise, changing only the enemy's health |
| Combat.ClericHeal | combat_system.py:308-315 | returns 30 and changes only the character's health |
| Combat.UseSpecialAbility | combat_system.py:244-271 | the two records and the message are those of the ability specification |
| Combat.StartBattleNeedsLiveCharacter | combat_system.py:116-119 | a character who cannot fight is refused with CharacterDead before any turn, with nothing changed; otherwise the battle loop runs |
| Combat.KillingBlowEndsRound | combat_system.py:123-130 | when the player's action kills the enemy, the round ends in victory with the enemy's rewards, the battle ends, and the enemy does not attack |
| Combat.EnemyKillEndsRound | combat_system.py:132-138 | when the enemy's attack kills the character, the round ends in defeat with no rewards and the battle ends |
| Combat.RoundContinues | combat_system.py:119-138 | a round that goes on leaves both sides standing and the battle active |
| Combat.EscapeThenEnemyTurnFails | combat_system.py:164-181 | after a successful escape, the enemy's turn in the same round raises CombatNotActive, with the records untouched |
| Combat.FailedEscapeOnlyEnemyActs | combat_system.py:164-183 | a failed escape costs the turn: only the enemy's attack happens |
| Combat.RoundKeepsHealthInRange | combat_system.py:119-138 | a round keeps the character's health in [0, max health] and the enemy's at or above 0 |
| Combat.BattleOutcome | combat_system.py:107-138 | over a whole battle, health stays in range; a victory pays exactly the enemy's rewards and a defeat nothing; a finished battle is inactive; the loop returns nothing only when the battle was not active |
| Combat.SimpleBattle.constructor | combat_system.py:100-105 | a new battle holds the two records and is active |
| Combat.SimpleBattle.AttemptEscape | combat_system.py:222-235 | a winning draw ends the battle and reports the escape; a losing draw changes nothing |
| Combat.SimpleBattle.PlayerTurn | combat_system.py:139-171 | the new state and result are those of the player-turn specification |
| Combat.SimpleBattle.EnemyTurn | combat_system.py:172-184 | the new state and result are those of the enemy-turn specification |
| Combat.SimpleBattle.Round | combat_system.py:119-138 | the new state and result of one loop pass are those of the round specification |
| Combat.SimpleBattle.StartBattle | combat_system.py:107-138 | the loop, with its invariant, produces exactly the state and result of the battle specification |
| GameData.ParseLine | game_data.py:253-265 | a line without ": " is malformed; every error is a malformed line or a non-integer; a key read holds an integer exactly when it is a number key |
| GameData.ParseLineNormalises | game_data.py:253-265 | a key read is lower case with no surrounding whitespace, a text value has no surrounding whitespace, and a number key whose stripped value is not an integer is reported as NotInteger naming the key, and only then |
| GameData.PaddedKeyLine | game_data.py:257-261 | a key written in any case and padded with whitespace reads back as the same entry as the plain lower-case key |
| GameData.ShoutedPaddedKey | game_data.py:257-261 | `  QUEST_ID : x` reads as `quest_id` = `x` |
| GameData.StoreEntries | game_data.py:253-267 | storing succeeds exactly when every line parsed, and otherwise reports the first line's error |
| GameData.StoreEntriesTyped | game_data.py:262-265 | the stored dictionary holds integers exactly under the number keys |
| GameData.LastValueOfLast | game_data.py:265 | the last entry naming a key is found at its position |
| GameData.StoreEntriesLookup | game_data.py:265 | each key of the stored dictionary holds the value of the last line naming it |
| GameData.ParseBlock | game_data.py:239-270 | a block parses exactly when every line parses; a failure is reported as a malformed line or a non-integer; a success holds integers exactly under the number keys |
| GameData.ParseBlockLookup | game_data.py:257-265 | a key of the parsed block holds the value of the last line naming it; a key no line names is absent |
| GameData.LaterEntryWins | game_data.py:265 | of two entries for the same key, the later one is kept |
| GameData.SplitAtColonSpace | game_data.py:257 | `key: value` splits at the first ": " into the key and the value |
| GameData.ParseRenderedLine | game_data.py:253-265 | a line written as `key: value` parses back to that key and value |
| GameData.ReadRenderedLines | game_data.py:253-265 | every written line of a record parses back to its entry |
| GameData.ParseRenderedBlock | game_data.py:239-270 | writing a record out line by line and parsing the block gives the same record |
| GameData.ValidateQuestData | game_data.py:137-166 | succeeds exactly when every quest field is present and the three number fields convert to integers; a missing field is reported as the first absent one, before the number check; every error is a format error |
| GameData.ValidateItemData | game_data.py:169-196 | succeeds exactly when every item field is present, the type is one of the three item types (weapon, armor, consumable) and the cost converts to an integer; the errors come in that order, a missing field as the first absent one |
| GameData.ParsedQuestIsValid | game_data.py:159-164 | a parsed quest block with every field present passes the number check |
| GameData.ParsedItemIsValid | game_data.py:187-194 | a parsed item block with every field and a known type passes validation |
| GameData.NonBlank | game_data.py:53-58 | keeps exactly the pieces that are not blank, in order |
| GameData.NonBlankAppend | game_data.py:53-58 | filtering distributes over concatenation |
| GameData.ContentBlocks | game_data.py:53-58 | there is one block per non-blank piece of the content split on blank lines; block i is never empty and holds exactly the non-blank lines of the i-th such piece, in order |
| GameData.NonBlankPieceHasLine | game_data.py:53-58 | a piece that is not blank has a line that is not blank |
| GameData.ContentSplitLosesNothing | game_data.py:53 | joining the pieces split on the blank-line separator gives the content back |
| GameData.Validate | game_data.py:64-67 | a record that passes its file's validator has its id key; a failure is a format error, never the empty-file one |
| GameData.CheckRecord | game_data.py:61-67 | a parsed record is accepted exactly when it validates, and is returned unchanged with the text of its id; otherwise the validator's error is returned |
| GameData.ReadBlock | game_data.py:58-67 | a block is read exactly when its lines parse and the record validates; a read record is valid and carries its id; a failure is a format error, never the empty-file one |
| GameData.StoreKeyedById | game_data.py:67 | each stored record is filed under its own id |
| GameData.LoadRecords | game_data.py:23-79 | blank content is the empty-file error, and only blank content is; otherwise loading succeeds exactly when every block parses and validates, and each record is filed under its id |
| GameData.LoadRecordsLookup | game_data.py:56-67 | each id holds the last block with that id, and an id no block has is absent |

## Left out

- Saving, loading, listing and deleting save files, and reading the data files, are not modelled. Nor are the default data files. The model takes the content as a string and the save record as a map.
- Display functions and printed messages (`display_combat_stats`, `display_battle_log`, `display_inventory`, the prompts) are not modelled.
- The random draws (escape, rogue critical strike) are boolean parameters, true when the draw is below 0.5.
- The enemy type depends on the level alone; the random level that main.py passes in is not part of this model.
- The player's menu input is a list of (choice, draw) pairs. Running out of input is the EndOfInput error, Python's EOFError.
- `get_quest_completion_percentage` is not modelled: it returns a float.
- `int()` accepts an optional sign and decimal digits. Underscores and surrounding whitespace inside the call are not accepted. The callers strip the text first.
- `str.lower()` is modelled for ASCII letters only; `str.strip()` uses Python's whitespace characters.
- `SimpleBattle.turn_counter` is not modelled: it is set and never read.
- Effects.ApplyStatTo: in the source a key the character dictionary lacks counts as 0. A new character has no `equipped_weapon` or `equipped_armor` key, so an effect naming one stores a number there. The model's record always holds both slots, so such an effect raises TypeError instead.
- Characters.RecordsValidate: the save dictionary is an idealised read-back. The real loader converts only text made of digits, so a negative number (gold, say) comes back as text and then fails validation as not an integer.
- Inventory.UnequipItem: slot names other than weapon and armor are not modelled. The character has no such key, so the source returns None and changes nothing.
- Inventory.Equip: the character's `inventory_data` table is a supplied map from item id to item. A missing table or a missing entry means an empty effect.
- Inventory.UseItem: returns the parsed effects instead of the message text built from the item's name.
- Quests.AvailableQuestIds: a set of quest ids, not the list of quest dictionaries in catalog order.
- Quests.GetQuestsByLevel: a set of quest ids, not the list of quest dictionaries in catalog order.
- Quests.ValidateQuestPrerequisites: the catalog is visited in an arbitrary order, so which invalid quest the message names is not modelled.
- The exceptions are one error datatype, and their message texts are not modelled.
- GameData.LoadRecords: the CorruptedDataError path is not modelled. The parsing and validation modelled here raise only InvalidDataFormatError.
- Converting loaded records into quest and item values is not modelled. The quest and item catalogs are given as typed maps.
- main.py, the game's menu loop, is not part of this model.
