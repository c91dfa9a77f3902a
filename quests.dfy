/** quest_handler.py: accepting, completing and abandoning quests against a read-only quest
    catalog, the eligibility check and the queries over a character's quest lists. */
module Quests {
  import opened Outcomes
  import opened Lists
  import opened Characters
  import opened Inventory

  /** A quest dictionary; `rewardItems` is None when the dictionary has no `reward_items`. */
  datatype Quest = Quest(
    questId: string,
    title: string,
    description: string,
    rewardXp: int,
    rewardGold: int,
    requiredLevel: int,
    prerequisite: string,
    rewardItems: Option<seq<string>>)

  /** The quest catalog, keyed by quest id. */
  type Catalog = map<string, Quest>

  /** What `complete_quest` returns. */
  datatype QuestReward = QuestReward(rewardXp: int, rewardGold: int, rewardItems: seq<string>)

  // ---------------------------------------------------------------------------
  // Accepting
  // ---------------------------------------------------------------------------

  /** `accept_quest`: QuestNotFound, InsufficientLevel, an unmet prerequisite, an already
      completed quest, an already active quest (reported as unmet requirements), in that
      order; otherwise the id goes at the end of the active list. */
  function AcceptSpec(d: CharacterData, id: string, quests: Catalog): Step<bool> {
    if id !in quests then Step(d, Err(QuestNotFound))
    else
      var q := quests[id];
      if d.level < q.requiredLevel then Step(d, Err(InsufficientLevel))
      else if q.prerequisite != "NONE" && q.prerequisite !in d.completedQuests then
        Step(d, Err(QuestRequirementsNotMet))
      else if id in d.completedQuests then Step(d, Err(QuestAlreadyCompleted))
      else if id in d.activeQuests then Step(d, Err(QuestRequirementsNotMet))
      else Step(d.(activeQuests := d.activeQuests + [id]), Ok(true))
  }

  /** `can_accept_quest`: true exactly when accepting the quest would succeed. */
  predicate CanAcceptQuest(d: CharacterData, id: string, quests: Catalog)
    ensures CanAcceptQuest(d, id, quests) <==> AcceptSpec(d, id, quests).result.Ok?
  {
    id in quests
    && (quests[id].prerequisite == "NONE" || quests[id].prerequisite in d.completedQuests)
    && id !in d.completedQuests && id !in d.activeQuests
    && d.level >= quests[id].requiredLevel
  }

  /** The eligibility check agrees with the operation: a quest can be accepted exactly when
      accepting it succeeds; a refusal changes nothing and a success only appends the id. */
  lemma CanAcceptIffAccepted(d: CharacterData, id: string, quests: Catalog)
    ensures var s := AcceptSpec(d, id, quests);
      (CanAcceptQuest(d, id, quests) <==> s.result.Ok?)
      && (s.result.Err? ==> s.after == d)
      && (s.result.Ok? ==> s.after == d.(activeQuests := d.activeQuests + [id]))
  {
  }

  /** Each refusal names its reason, checked in the source's order. */
  lemma AcceptErrorOrder(d: CharacterData, id: string, quests: Catalog)
    ensures var r := AcceptSpec(d, id, quests).result;
      (id !in quests ==> r == Err(QuestNotFound))
      && (id in quests && d.level < quests[id].requiredLevel ==> r == Err(InsufficientLevel))
      && (r == Err(QuestAlreadyCompleted) <==>
            id in quests && d.level >= quests[id].requiredLevel && id in d.completedQuests
            && (quests[id].prerequisite == "NONE" || quests[id].prerequisite in d.completedQuests))
      && (r == Err(QuestRequirementsNotMet) <==>
            id in quests && d.level >= quests[id].requiredLevel
            && ((quests[id].prerequisite != "NONE" && quests[id].prerequisite !in d.completedQuests)
                || (id !in d.completedQuests && id in d.activeQuests)))
  {
  }

  method AcceptQuest(c: Character, id: string, quests: Catalog) returns (r: Result<bool>)
    modifies c
    ensures c.Snapshot() == AcceptSpec(old(c.Snapshot()), id, quests).after
    ensures r == AcceptSpec(old(c.Snapshot()), id, quests).result
  {
    if id !in quests {
      return Err(QuestNotFound);
    }
    var q := quests[id];
    if c.level < q.requiredLevel {
      return Err(InsufficientLevel);
    }
    if q.prerequisite != "NONE" && q.prerequisite !in c.completedQuests {
      return Err(QuestRequirementsNotMet);
    }
    if id in c.completedQuests {
      return Err(QuestAlreadyCompleted);
    }
    if id in c.activeQuests {
      return Err(QuestRequirementsNotMet);
    }
    c.activeQuests := c.activeQuests + [id];
    return Ok(true);
  }

  // ---------------------------------------------------------------------------
  // Completing and abandoning
  // ---------------------------------------------------------------------------

  /** The reward-item loop: each id is offered to the inventory in turn; one that does not
      fit is skipped. Returns the record and the ids that went in. */
  function AddRewards(d: CharacterData, ids: seq<string>): (CharacterData, seq<string>)
    decreases |ids|
  {
    if ids == [] then (d, [])
    else
      var added := AddItemSpec(d, ids[0]);
      var (after, rest) := AddRewards(added.after, ids[1..]);
      (after, (if added.result.Ok? then [ids[0]] else []) + rest)
  }

  function Min(a: int, b: int): int {
    if a <= b then a else b
  }

  /** The reward items that go in are exactly the first ones, as many as there is room for,
      and they are appended in order. */
  lemma {:induction false} RewardItemsPrefix(d: CharacterData, ids: seq<string>)
    requires |d.inventory| <= MaxInventorySize
    ensures var (after, given) := AddRewards(d, ids);
      given == ids[..Min(|ids|, MaxInventorySize - |d.inventory|)]
      && after == d.(inventory := d.inventory + given)
    decreases |ids|
  {
    if ids != [] {
      var added := AddItemSpec(d, ids[0]);
      var room := MaxInventorySize - |d.inventory|;
      RewardItemsPrefix(added.after, ids[1..]);
      if room > 0 {
        assert added.after == d.(inventory := d.inventory + [ids[0]]);
        assert ids[..Min(|ids|, room)] == [ids[0]] + ids[1..][..Min(|ids| - 1, room - 1)];
      } else {
        assert added == Step(d, Err(InventoryFull));
      }
    }
  }

  /** `complete_quest`: QuestNotFound before QuestNotActive; then the id moves from the
      active list to the end of the completed list, the rewards are added to experience and
      gold without any level-up, and the reward items are offered to the inventory when an
      item catalog is given and the quest lists some. */
  function CompleteSpec(d: CharacterData, id: string, quests: Catalog, items: map<string, Item>)
    : Step<QuestReward>
  {
    if id !in quests then Step(d, Err(QuestNotFound))
    else if id !in d.activeQuests then Step(d, Err(QuestNotActive))
    else
      var q := quests[id];
      var moved := d.(activeQuests := RemoveFirst(d.activeQuests, id),
                      completedQuests := d.completedQuests + [id],
                      experience := d.experience + q.rewardXp,
                      gold := d.gold + q.rewardGold);
      var (after, given) := if |items| > 0 && q.rewardItems.Some? then AddRewards(moved, q.rewardItems.value)
                            else (moved, []);
      Step(after, Ok(QuestReward(q.rewardXp, q.rewardGold, given)))
  }

  /** Completing: the errors in order with nothing changed; on success the quest moves from
      active to the end of completed, experience and gold grow by exactly the rewards returned
      (the level does not change), and the items returned are the first reward items that
      fit, now at the end of the inventory. */
  lemma CompleteOutcome(d: CharacterData, id: string, quests: Catalog, items: map<string, Item>)
    requires |d.inventory| <= MaxInventorySize
    ensures var s := CompleteSpec(d, id, quests, items);
      (id !in quests ==> s == Step(d, Err(QuestNotFound)))
      && (id in quests && id !in d.activeQuests ==> s == Step(d, Err(QuestNotActive)))
      && (s.result.Ok? <==> id in quests && id in d.activeQuests)
      && (s.result.Ok? ==>
            var q, r := quests[id], s.result.value;
            r.rewardXp == q.rewardXp && r.rewardGold == q.rewardGold
            && s.after.experience == d.experience + q.rewardXp
            && s.after.gold == d.gold + q.rewardGold
            && s.after.level == d.level
            && s.after.completedQuests == d.completedQuests + [id]
            && multiset(s.after.activeQuests) == multiset(d.activeQuests) - multiset{id}
            && s.after.inventory == d.inventory + r.rewardItems
            && (if |items| > 0 && q.rewardItems.Some?
                then r.rewardItems == q.rewardItems.value[..Min(|q.rewardItems.value|,
                                                              MaxInventorySize - |d.inventory|)]
                else r.rewardItems == []))
  {
    if id in quests && id in d.activeQuests {
      var q := quests[id];
      RemoveFirstMultiset(d.activeQuests, id);
      var moved := d.(activeQuests := RemoveFirst(d.activeQuests, id),
                      completedQuests := d.completedQuests + [id],
                      experience := d.experience + q.rewardXp,
                      gold := d.gold + q.rewardGold);
      if |items| > 0 && q.rewardItems.Some? {
        RewardItemsPrefix(moved, q.rewardItems.value);
      }
    }
  }

  /** A successful completion changes only the two quest lists, experience, gold and the
      inventory. */
  lemma CompleteShape(d: CharacterData, id: string, quests: Catalog, items: map<string, Item>)
    requires |d.inventory| <= MaxInventorySize
    requires CompleteSpec(d, id, quests, items).result.Ok?
    ensures var a := CompleteSpec(d, id, quests, items).after;
      var q := quests[id];
      id in d.activeQuests
      && a == d.(activeQuests := RemoveFirst(d.activeQuests, id),
                 completedQuests := d.completedQuests + [id],
                 experience := d.experience + q.rewardXp,
                 gold := d.gold + q.rewardGold,
                 inventory := a.inventory)
  {
    var q := quests[id];
    var moved := d.(activeQuests := RemoveFirst(d.activeQuests, id),
                    completedQuests := d.completedQuests + [id],
                    experience := d.experience + q.rewardXp,
                    gold := d.gold + q.rewardGold);
    if |items| > 0 && q.rewardItems.Some? {
      RewardItemsPrefix(moved, q.rewardItems.value);
    }
  }

  /** `abandon_quest`: QuestNotActive unless active; otherwise the id leaves the active list. */
  function AbandonSpec(d: CharacterData, id: string): Step<bool> {
    if id !in d.activeQuests then Step(d, Err(QuestNotActive))
    else Step(d.(activeQuests := RemoveFirst(d.activeQuests, id)), Ok(true))
  }

  /** Abandoning only takes the quest off the active list: no reward and nothing else moves. */
  lemma AbandonOutcome(d: CharacterData, id: string)
    ensures var s := AbandonSpec(d, id);
      (s.result.Ok? <==> id in d.activeQuests)
      && (s.result.Err? ==> s == Step(d, Err(QuestNotActive)))
      && (s.result.Ok? ==>
            multiset(s.after.activeQuests) == multiset(d.activeQuests) - multiset{id}
            && s.after == d.(activeQuests := s.after.activeQuests))
  {
    if id in d.activeQuests {
      RemoveFirstMultiset(d.activeQuests, id);
    }
  }

  method AddRewardItems(c: Character, ids: seq<string>) returns (given: seq<string>)
    modifies c
    ensures (c.Snapshot(), given) == AddRewards(old(c.Snapshot()), ids)
  {
    given := [];
    var i := 0;
    while i < |ids|
      invariant 0 <= i <= |ids|
      invariant AddRewards(old(c.Snapshot()), ids).0 == AddRewards(c.Snapshot(), ids[i..]).0
      invariant AddRewards(old(c.Snapshot()), ids).1 == given + AddRewards(c.Snapshot(), ids[i..]).1
    {
      assert ids[i..][1..] == ids[i + 1..];
      var added := AddItem(c, ids[i]);
      if added.Ok? {
        given := given + [ids[i]];
      }
      i := i + 1;
    }
    assert given + [] == given;
  }

  method CompleteQuest(c: Character, id: string, quests: Catalog, items: map<string, Item>)
    returns (r: Result<QuestReward>)
    modifies c
    ensures Step(c.Snapshot(), r) == CompleteSpec(old(c.Snapshot()), id, quests, items)
  {
    if id !in quests {
      return Err(QuestNotFound);
    }
    if id !in c.activeQuests {
      return Err(QuestNotActive);
    }
    var q := quests[id];
    c.activeQuests := RemoveFirst(c.activeQuests, id);
    c.completedQuests := c.completedQuests + [id];
    c.experience := c.experience + q.rewardXp;
    c.gold := c.gold + q.rewardGold;
    var given: seq<string> := [];
    if |items| > 0 && q.rewardItems.Some? {
      given := AddRewardItems(c, q.rewardItems.value);
    }
    return Ok(QuestReward(q.rewardXp, q.rewardGold, given));
  }

  method AbandonQuest(c: Character, id: string) returns (r: Result<bool>)
    modifies c
    ensures c.Snapshot() == AbandonSpec(old(c.Snapshot()), id).after
    ensures r == AbandonSpec(old(c.Snapshot()), id).result
  {
    if id !in c.activeQuests {
      return Err(QuestNotActive);
    }
    c.activeQuests := RemoveFirst(c.activeQuests, id);
    return Ok(true);
  }

  // ---------------------------------------------------------------------------
  // The quest-list invariant
  // ---------------------------------------------------------------------------

  /** No quest is active twice, and none is both active and completed. */
  predicate QuestListsValid(d: CharacterData) {
    NoDuplicates(d.activeQuests) && forall q :: q in d.activeQuests ==> q !in d.completedQuests
  }

  /** Accepting keeps the quest lists valid and never shrinks the completed list. */
  lemma AcceptKeepsQuestLists(d: CharacterData, id: string, quests: Catalog)
    requires QuestListsValid(d)
    ensures var a := AcceptSpec(d, id, quests).after;
      QuestListsValid(a) && a.completedQuests == d.completedQuests
  {
  }

  /** Completing keeps the quest lists valid and only extends the completed list. */
  lemma CompleteKeepsQuestLists(d: CharacterData, id: string, quests: Catalog, items: map<string, Item>)
    requires QuestListsValid(d) && |d.inventory| <= MaxInventorySize
    ensures var a := CompleteSpec(d, id, quests, items).after;
      QuestListsValid(a) && |a.completedQuests| >= |d.completedQuests|
      && a.completedQuests[..|d.completedQuests|] == d.completedQuests
  {
    if CompleteSpec(d, id, quests, items).result.Ok? {
      CompleteShape(d, id, quests, items);
      RemoveFirstNoDuplicates(d.activeQuests, id);
    }
  }

  /** Abandoning keeps the quest lists valid and leaves the completed list alone. */
  lemma AbandonKeepsQuestLists(d: CharacterData, id: string)
    requires QuestListsValid(d)
    ensures var a := AbandonSpec(d, id).after;
      QuestListsValid(a) && a.completedQuests == d.completedQuests
  {
    RemoveFirstNoDuplicates(d.activeQuests, id);
  }

  // ---------------------------------------------------------------------------
  // Queries
  // ---------------------------------------------------------------------------

  /** The ids of `ids` that the catalog knows, in order. */
  function KnownIds(ids: seq<string>, quests: Catalog): (r: seq<string>)
    ensures forall x :: x in r <==> x in ids && x in quests
    ensures |r| <= |ids|
  {
    if ids == [] then []
    else (if ids[0] in quests then [ids[0]] else []) + KnownIds(ids[1..], quests)
  }

  /** The list comprehension keeps the order of the character's list: growing the list at the
      end grows the result at the end. */
  lemma {:induction false} KnownIdsAppend(ids: seq<string>, x: string, quests: Catalog)
    ensures KnownIds(ids + [x], quests) == KnownIds(ids, quests) + (if x in quests then [x] else [])
  {
    if ids != [] {
      assert (ids + [x])[1..] == ids[1..] + [x];
      KnownIdsAppend(ids[1..], x, quests);
    }
  }

  function Lookup(ids: seq<string>, quests: Catalog): (r: seq<Quest>)
    requires forall x :: x in ids ==> x in quests
    ensures |r| == |ids| && forall i :: 0 <= i < |ids| ==> r[i] == quests[ids[i]]
  {
    seq(|ids|, i requires 0 <= i < |ids| => quests[ids[i]])
  }

  /** A quest is among the looked-up entries exactly when some listed id names it. */
  lemma LookupMembers(ids: seq<string>, quests: Catalog)
    requires forall x :: x in ids ==> x in quests
    ensures forall q :: q in Lookup(ids, quests) <==> exists x :: x in ids && quests[x] == q
  {
    var r := Lookup(ids, quests);
    forall q | q in r
      ensures exists x :: x in ids && quests[x] == q
    {
      var i :| 0 <= i < |r| && r[i] == q;
      assert ids[i] in ids && quests[ids[i]] == q;
    }
    forall q | exists x :: x in ids && quests[x] == q
      ensures q in r
    {
      var x :| x in ids && quests[x] == q;
      var i :| 0 <= i < |ids| && ids[i] == x;
      assert r[i] == q;
    }
  }

  /** `get_active_quests`: the catalog entries of the active quests, in list order, skipping
      ids the catalog does not know; no more entries than active ids. */
  function GetActiveQuests(d: CharacterData, quests: Catalog): (r: seq<Quest>)
    ensures |r| <= |d.activeQuests|
    ensures forall q :: q in r <==> exists id :: id in d.activeQuests && id in quests && quests[id] == q
  {
    var known := KnownIds(d.activeQuests, quests);
    LookupMembers(known, quests);
    Lookup(known, quests)
  }

  /** `get_completed_quests`, likewise over the completed list. */
  function GetCompletedQuests(d: CharacterData, quests: Catalog): (r: seq<Quest>)
    ensures |r| <= |d.completedQuests|
    ensures forall q :: q in r <==> exists id :: id in d.completedQuests && id in quests && quests[id] == q
  {
    var known := KnownIds(d.completedQuests, quests);
    LookupMembers(known, quests);
    Lookup(known, quests)
  }

  /** Accepting a quest adds its catalog entry at the end of the active quests. */
  lemma AcceptedQuestListedLast(d: CharacterData, id: string, quests: Catalog)
    requires AcceptSpec(d, id, quests).result.Ok?
    ensures GetActiveQuests(AcceptSpec(d, id, quests).after, quests)
            == GetActiveQuests(d, quests) + [quests[id]]
  {
    KnownIdsAppend(d.activeQuests, id, quests);
  }

  /** `get_available_quests`, as the set of quest ids it lists: catalog quests that are
      neither active nor completed. */
  function AvailableQuestIds(d: CharacterData, quests: Catalog): (r: set<string>)
    ensures r <= quests.Keys
    ensures forall id :: id in r ==> id !in d.activeQuests && id !in d.completedQuests
                                     && quests[id].requiredLevel <= d.level
  {
    set id | id in quests && CanAcceptQuest(d, id, quests)
  }

  /** A quest is listed as available exactly when accepting it would succeed. */
  lemma AvailableMeansAcceptable(d: CharacterData, quests: Catalog, id: string)
    ensures id in AvailableQuestIds(d, quests) <==> AcceptSpec(d, id, quests).result.Ok?
  {
    CanAcceptIffAccepted(d, id, quests);
  }

  /** `is_quest_completed`: a completed quest cannot be accepted again, and while the quest
      lists are valid it is not active either. */
  function IsQuestCompleted(d: CharacterData, id: string): (b: bool)
    ensures forall quests: Catalog :: b ==> AcceptSpec(d, id, quests).result.Err?
    ensures QuestListsValid(d) && b ==> id !in d.activeQuests
  {
    id in d.completedQuests
  }

  /** `is_quest_active`: a quest is active exactly when abandoning it succeeds, and an active
      quest cannot be accepted again. */
  function IsQuestActive(d: CharacterData, id: string): (b: bool)
    ensures b <==> AbandonSpec(d, id).result.Ok?
    ensures forall quests: Catalog :: b ==> AcceptSpec(d, id, quests).result.Err?
  {
    id in d.activeQuests
  }

  /** A completed quest is no longer active and is recorded as completed. */
  lemma CompletedQuestStatus(d: CharacterData, id: string, quests: Catalog, items: map<string, Item>)
    requires QuestListsValid(d) && |d.inventory| <= MaxInventorySize
    requires CompleteSpec(d, id, quests, items).result.Ok?
    ensures var a := CompleteSpec(d, id, quests, items).after;
      IsQuestCompleted(a, id) && !IsQuestActive(a, id)
  {
    CompleteShape(d, id, quests, items);
    RemoveFirstNoDuplicates(d.activeQuests, id);
  }

  /** The sums of rewards over the quests of a list that the catalog knows. */
  function XpTotal(ids: seq<string>, quests: Catalog): int {
    if ids == [] then 0
    else (if ids[0] in quests then quests[ids[0]].rewardXp else 0) + XpTotal(ids[1..], quests)
  }

  function GoldTotal(ids: seq<string>, quests: Catalog): int {
    if ids == [] then 0
    else (if ids[0] in quests then quests[ids[0]].rewardGold else 0) + GoldTotal(ids[1..], quests)
  }

  /** `get_total_quest_rewards_earned`. */
  datatype RewardTotals = RewardTotals(totalXp: int, totalGold: int)

  /** With rewards that are never negative, the totals are never negative either. */
  function GetTotalQuestRewardsEarned(d: CharacterData, quests: Catalog): (r: RewardTotals)
    ensures NonNegativeRewards(quests) ==> r.totalXp >= 0 && r.totalGold >= 0
  {
    TotalsNonNegative(d.completedQuests, quests);
    RewardTotals(XpTotal(d.completedQuests, quests), GoldTotal(d.completedQuests, quests))
  }

  predicate NonNegativeRewards(quests: Catalog) {
    forall id :: id in quests ==> quests[id].rewardXp >= 0 && quests[id].rewardGold >= 0
  }

  lemma {:induction false} TotalsNonNegative(ids: seq<string>, quests: Catalog)
    ensures NonNegativeRewards(quests) ==> XpTotal(ids, quests) >= 0 && GoldTotal(ids, quests) >= 0
  {
    if ids != [] {
      TotalsNonNegative(ids[1..], quests);
    }
  }

  lemma {:induction false} TotalsAppend(ids: seq<string>, x: string, quests: Catalog)
    requires x in quests
    ensures XpTotal(ids + [x], quests) == XpTotal(ids, quests) + quests[x].rewardXp
    ensures GoldTotal(ids + [x], quests) == GoldTotal(ids, quests) + quests[x].rewardGold
  {
    if ids != [] {
      assert (ids + [x])[1..] == ids[1..] + [x];
      TotalsAppend(ids[1..], x, quests);
    }
  }

  /** Completing a quest adds its catalog entry at the end of the completed quests. */
  lemma CompletedQuestListedLast(d: CharacterData, id: string, quests: Catalog, items: map<string, Item>)
    requires |d.inventory| <= MaxInventorySize
    requires CompleteSpec(d, id, quests, items).result.Ok?
    ensures GetCompletedQuests(CompleteSpec(d, id, quests, items).after, quests)
            == GetCompletedQuests(d, quests) + [quests[id]]
  {
    CompleteShape(d, id, quests, items);
    KnownIdsAppend(d.completedQuests, id, quests);
  }

  /** Completing a quest raises the reward totals by exactly what it paid out in experience
      and gold. */
  lemma CompletionAddsToTotals(d: CharacterData, id: string, quests: Catalog, items: map<string, Item>)
    requires |d.inventory| <= MaxInventorySize
    requires CompleteSpec(d, id, quests, items).result.Ok?
    ensures var s := CompleteSpec(d, id, quests, items);
      var before, after := GetTotalQuestRewardsEarned(d, quests), GetTotalQuestRewardsEarned(s.after, quests);
      after.totalXp - before.totalXp == s.after.experience - d.experience == s.result.value.rewardXp
      && after.totalGold - before.totalGold == s.after.gold - d.gold == s.result.value.rewardGold
  {
    CompleteOutcome(d, id, quests, items);
    TotalsAppend(d.completedQuests, id, quests);
  }

  /** `get_quests_by_level`, as the set of quest ids it lists. */
  function GetQuestsByLevel(quests: Catalog, minLevel: int, maxLevel: int): (r: set<string>)
    ensures forall id :: id in r <==> id in quests && minLevel <= quests[id].requiredLevel <= maxLevel
  {
    set id | id in quests && minLevel <= quests[id].requiredLevel <= maxLevel
  }

  /** Two adjacent level ranges list, between them, exactly the quests of the joined range,
      and no quest is listed by both. */
  lemma QuestsByLevelSplit(quests: Catalog, a: int, b: int, c: int)
    requires a <= b < c
    ensures GetQuestsByLevel(quests, a, b) + GetQuestsByLevel(quests, b + 1, c)
            == GetQuestsByLevel(quests, a, c)
    ensures GetQuestsByLevel(quests, a, b) * GetQuestsByLevel(quests, b + 1, c) == {}
  {
    var low, high, all := GetQuestsByLevel(quests, a, b), GetQuestsByLevel(quests, b + 1, c),
                          GetQuestsByLevel(quests, a, c);
    assert forall id :: id in all ==> id in low || id in high;
    assert forall id :: id in low ==> id !in high;
  }

  /** An empty level range lists nothing. */
  lemma QuestsByLevelEmptyRange(quests: Catalog, minLevel: int, maxLevel: int)
    requires minLevel > maxLevel
    ensures GetQuestsByLevel(quests, minLevel, maxLevel) == {}
  {
    var r := GetQuestsByLevel(quests, minLevel, maxLevel);
    assert forall id :: id !in r;
  }

  /** Every available quest is listed by level between a floor under all required levels and
      the character's level. */
  lemma AvailableWithinLevel(d: CharacterData, quests: Catalog, floor: int)
    requires forall id :: id in quests ==> floor <= quests[id].requiredLevel
    ensures AvailableQuestIds(d, quests) <= GetQuestsByLevel(quests, floor, d.level)
  {
    forall id | id in AvailableQuestIds(d, quests)
      ensures id in GetQuestsByLevel(quests, floor, d.level)
    {
      assert CanAcceptQuest(d, id, quests);
    }
  }

  /** Every quest's prerequisite is "NONE" or a quest in the catalog. */
  predicate PrerequisitesValid(quests: Catalog) {
    forall id :: id in quests ==> quests[id].prerequisite == "NONE" || quests[id].prerequisite in quests
  }

  /** `validate_quest_prerequisites`: a pass over the catalog that raises QuestNotFound at a
      quest whose prerequisite is missing. */
  method ValidateQuestPrerequisites(quests: Catalog) returns (r: Result<bool>)
    ensures r.Ok? <==> PrerequisitesValid(quests)
    ensures r.Err? ==> r.error == QuestNotFound
    ensures r.Ok? ==> r.value
  {
    var remaining := quests.Keys;
    while remaining != {}
      invariant remaining <= quests.Keys
      invariant forall id :: id in quests && id !in remaining ==>
                  quests[id].prerequisite == "NONE" || quests[id].prerequisite in quests
      decreases remaining
    {
      var id :| id in remaining;
      var prereq := quests[id].prerequisite;
      if prereq != "NONE" && prereq !in quests {
        return Err(QuestNotFound);
      }
      remaining := remaining - {id};
    }
    return Ok(true);
  }
}
