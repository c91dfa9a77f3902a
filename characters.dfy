/** The character record and the operations of character_manager.py: creation from the class
    table, experience with level-ups, gold, healing, death and revival, and validation of a
    loaded save dictionary. */
module Characters {
  import opened Outcomes
  import opened Lists

  /** A character dictionary as a value. `extraStats` holds integer keys outside the fixed
      schema (an item effect may create them); an empty equipment slot, absent or None in
      the dictionary, is `None`. */
  datatype CharacterData = CharacterData(
    name: string,
    charClass: string,
    level: int,
    health: int,
    maxHealth: int,
    strength: int,
    magic: int,
    experience: int,
    gold: int,
    inventory: seq<string>,
    activeQuests: seq<string>,
    completedQuests: seq<string>,
    equippedWeapon: Option<string>,
    equippedArmor: Option<string>,
    extraStats: map<string, int>)

  /** What an operation on a character does: the record afterwards (also when it raised
      part-way) and what it returned or raised. */
  datatype Step<+T> = Step(after: CharacterData, result: Result<T>)

  /** The mutable character dictionary, one field per key. */
  class Character {
    var name: string
    var charClass: string
    var level: int
    var health: int
    var maxHealth: int
    var strength: int
    var magic: int
    var experience: int
    var gold: int
    var inventory: seq<string>
    var activeQuests: seq<string>
    var completedQuests: seq<string>
    var equippedWeapon: Option<string>
    var equippedArmor: Option<string>
    var extraStats: map<string, int>

    /** The dictionary's current contents. */
    function Snapshot(): (d: CharacterData)
      reads this
      ensures d.level == level && d.health == health && d.maxHealth == maxHealth
      ensures d.strength == strength && d.magic == magic && d.experience == experience
      ensures d.gold == gold && d.inventory == inventory
      ensures d.activeQuests == activeQuests && d.completedQuests == completedQuests
    {
      CharacterData(name, charClass, level, health, maxHealth, strength, magic, experience, gold,
                    inventory, activeQuests, completedQuests, equippedWeapon, equippedArmor,
                    extraStats)
    }

    constructor (d: CharacterData)
      ensures Snapshot() == d
    {
      name, charClass := d.name, d.charClass;
      level, health, maxHealth := d.level, d.health, d.maxHealth;
      strength, magic, experience, gold := d.strength, d.magic, d.experience, d.gold;
      inventory, activeQuests, completedQuests := d.inventory, d.activeQuests, d.completedQuests;
      equippedWeapon, equippedArmor := d.equippedWeapon, d.equippedArmor;
      extraStats := d.extraStats;
    }
  }

  // ---------------------------------------------------------------------------
  // Creation
  // ---------------------------------------------------------------------------

  predicate IsValidClass(cls: string) {
    cls == "Warrior" || cls == "Mage" || cls == "Rogue" || cls == "Cleric"
  }

  /** Starting (health, strength, magic) of each class. */
  function ClassBaseStats(cls: string): (t: (int, int, int))
    requires IsValidClass(cls)
  {
    if cls == "Warrior" then (120, 15, 5)
    else if cls == "Mage" then (80, 8, 20)
    else if cls == "Rogue" then (90, 12, 10)
    else (100, 10, 15)
  }

  /** Experience is below the next level-up threshold and levels start at 1: the state
      every level-up loop ends in. */
  predicate Settled(d: CharacterData) {
    1 <= d.level && 0 <= d.experience < d.level * 100
  }

  /** `create_character`. */
  function CreateCharacter(name: string, cls: string): (r: Result<CharacterData>)
    ensures r.Err? <==> !IsValidClass(cls)
    ensures r.Err? ==> r.error == InvalidCharacterClass
    ensures r.Ok? ==> var d := r.value;
      d.name == name && d.charClass == cls && d.level == 1 && d.experience == 0 && d.gold == 100
      && d.health == d.maxHealth && d.inventory == [] && d.activeQuests == []
      && d.completedQuests == [] && d.equippedWeapon.None? && d.equippedArmor.None?
      && d.extraStats == map[] && Settled(d) && d.health > 0
  {
    if !IsValidClass(cls) then Err(InvalidCharacterClass)
    else
      var (health, strength, magic) := ClassBaseStats(cls);
      Ok(CharacterData(name, cls, 1, health, health, strength, magic, 0, 100, [], [], [],
                       None, None, map[]))
  }

  /** Each class starts with its own row of the table. */
  lemma CreateCharacterTable(name: string)
    ensures var w := CreateCharacter(name, "Warrior").value;
      w.health == 120 && w.strength == 15 && w.magic == 5
    ensures var m := CreateCharacter(name, "Mage").value;
      m.health == 80 && m.strength == 8 && m.magic == 20
    ensures var r := CreateCharacter(name, "Rogue").value;
      r.health == 90 && r.strength == 12 && r.magic == 10
    ensures var c := CreateCharacter(name, "Cleric").value;
      c.health == 100 && c.strength == 10 && c.magic == 15
  {
  }

  // ---------------------------------------------------------------------------
  // Experience and level-ups
  // ---------------------------------------------------------------------------

  /** One pass of the level-up loop. */
  function LevelUpOnce(d: CharacterData): CharacterData {
    d.(experience := d.experience - d.level * 100, level := d.level + 1,
       maxHealth := d.maxHealth + 10, strength := d.strength + 2, magic := d.magic + 2,
       health := d.maxHealth + 10)
  }

  /** The level-up loop run to the end: while experience reaches level × 100, pay that much
      and gain a level, 10 max health, 2 strength, 2 magic and full health. */
  function LevelUps(d: CharacterData): (r: CharacterData)
    ensures r.level >= d.level
    decreases (if d.level <= 0 then 1 - d.level else 0), (if d.experience < 0 then 0 else d.experience)
  {
    if d.experience >= d.level * 100 then LevelUps(LevelUpOnce(d)) else d
  }

  /** What the loop leaves behind: experience below the next threshold, and per level gained
      10 max health, 2 strength, 2 magic and full health, with every other field untouched;
      a settled record stays settled. */
  lemma {:induction false} LevelUpsShape(d: CharacterData)
    ensures var r := LevelUps(d);
      r.experience < r.level * 100
      && r.maxHealth == d.maxHealth + 10 * (r.level - d.level)
      && r.strength == d.strength + 2 * (r.level - d.level)
      && r.magic == d.magic + 2 * (r.level - d.level)
      && r.health == (if r.level == d.level then d.health else r.maxHealth)
      && (r.level == d.level ==> r == d)
      && r == d.(level := r.level, experience := r.experience, maxHealth := r.maxHealth,
                 strength := r.strength, magic := r.magic, health := r.health)
      && (d.level >= 0 && d.experience >= 0 ==> Settled(r))
    decreases (if d.level <= 0 then 1 - d.level else 0), (if d.experience < 0 then 0 else d.experience)
  {
    if d.experience >= d.level * 100 {
      LevelUpsShape(LevelUpOnce(d));
    }
  }

  /** Experience needed to climb from level `a` to level `b`: a·100 + (a+1)·100 + … + (b-1)·100. */
  function XpForLevels(a: int, b: int): int
    requires a <= b
    decreases b - a
  {
    if a == b then 0 else a * 100 + XpForLevels(a + 1, b)
  }

  /** No experience is lost or made up by the loop: what was paid equals the levels gained. */
  lemma {:induction false} LevelUpsConservesXp(d: CharacterData)
    ensures var r := LevelUps(d);
      d.experience == r.experience + XpForLevels(d.level, r.level)
    decreases (if d.level <= 0 then 1 - d.level else 0), (if d.experience < 0 then 0 else d.experience)
  {
    if d.experience >= d.level * 100 {
      LevelUpsConservesXp(LevelUpOnce(d));
    }
  }

  /** Climbing from level `a` to level `b` costs 50·(b·(b−1) − a·(a−1)) experience. */
  lemma {:induction false} XpForLevelsClosedForm(a: int, b: int)
    requires a <= b
    ensures XpForLevels(a, b) == 50 * (b * (b - 1) - a * (a - 1))
    decreases b - a
  {
    if a < b {
      XpForLevelsClosedForm(a + 1, b);
      assert (a + 1) * a - a * (a - 1) == 2 * a;
    }
  }

  /** `gain_experience`: a dead character raises and is untouched; otherwise the experience is
      added and the level-up loop runs. */
  function GainExperienceSpec(d: CharacterData, xpAmount: int): (s: Step<()>)
  {
    if d.health <= 0 then Step(d, Err(CharacterDead))
    else Step(LevelUps(d.(experience := d.experience + xpAmount)), Ok(()))
  }

  /** A settled character that gains experience from level 1 reaches a level L whose total
      cost 50·L·(L−1) plus the leftover equals everything it earned. */
  lemma GainExperienceFromStart(d: CharacterData, xpAmount: int)
    requires d.level == 1 && d.experience == 0 && d.health > 0 && xpAmount >= 0
    ensures var a := GainExperienceSpec(d, xpAmount).after;
      Settled(a) && xpAmount == a.experience + 50 * a.level * (a.level - 1)
  {
    var e := d.(experience := xpAmount);
    LevelUpsShape(e);
    LevelUpsConservesXp(e);
    XpForLevelsClosedForm(1, LevelUps(e).level);
  }

  /** Gaining a non-negative amount keeps a settled character settled, never lowers its level
      and only raises its stats. */
  lemma GainExperienceKeepsSettled(d: CharacterData, xpAmount: int)
    requires Settled(d) && xpAmount >= 0
    ensures var s := GainExperienceSpec(d, xpAmount);
      Settled(s.after) && s.after.level >= d.level
      && s.after.strength >= d.strength && s.after.magic >= d.magic
      && s.after.maxHealth >= d.maxHealth
      && (s.result.Err? <==> d.health <= 0)
      && (s.result.Err? ==> s.after == d)
  {
    LevelUpsShape(d.(experience := d.experience + xpAmount));
  }

  /** `gain_experience`, the loop as written. */
  method GainExperience(c: Character, xpAmount: int) returns (r: Result<()>)
    modifies c
    ensures Step(c.Snapshot(), r) == GainExperienceSpec(old(c.Snapshot()), xpAmount)
  {
    if c.health <= 0 {
      return Err(CharacterDead);
    }
    c.experience := c.experience + xpAmount;
    ghost var target := LevelUps(c.Snapshot());
    while c.experience >= c.level * 100
      invariant LevelUps(c.Snapshot()) == target
      decreases (if c.level <= 0 then 1 - c.level else 0), (if c.experience < 0 then 0 else c.experience)
    {
      ghost var next := LevelUpOnce(c.Snapshot());
      LevelUpsStep(c.Snapshot());
      c.experience := c.experience - c.level * 100;
      c.level := c.level + 1;
      c.maxHealth := c.maxHealth + 10;
      c.strength := c.strength + 2;
      c.magic := c.magic + 2;
      c.health := c.maxHealth;
      assert c.Snapshot() == next;
    }
    return Ok(());
  }

  /** One pass of the level-up loop leaves the loop's final result unchanged. */
  lemma LevelUpsStep(d: CharacterData)
    requires d.experience >= d.level * 100
    ensures LevelUps(d) == LevelUps(LevelUpOnce(d))
  {
  }

  // ---------------------------------------------------------------------------
  // Gold, healing, death
  // ---------------------------------------------------------------------------

  /** `add_gold`: raises ValueError, changing nothing, when the total would go negative;
      otherwise adds and returns the new total. */
  function AddGoldSpec(d: CharacterData, amount: int): (s: Step<int>) {
    if d.gold + amount < 0 then Step(d, Err(ValueError))
    else Step(d.(gold := d.gold + amount), Ok(d.gold + amount))
  }

  /** Gold never goes negative through `add_gold`, and the returned total is the new gold. */
  lemma AddGoldNeverNegative(d: CharacterData, amount: int)
    requires d.gold >= 0
    ensures var s := AddGoldSpec(d, amount);
      s.after.gold >= 0
      && (s.result.Ok? <==> amount >= -d.gold)
      && (s.result.Ok? ==> s.result.value == s.after.gold == d.gold + amount)
      && s.after == d.(gold := s.after.gold)
  {
  }

  /** Spending what was just received gives back the original record. */
  lemma AddGoldThenSpend(d: CharacterData, amount: int)
    requires d.gold >= 0 && amount >= 0
    ensures var s := AddGoldSpec(d, amount);
      s.result.Ok? && AddGoldSpec(s.after, -amount) == Step(d, Ok(d.gold))
  {
  }

  method AddGold(c: Character, amount: int) returns (r: Result<int>)
    modifies c
    ensures c.Snapshot() == AddGoldSpec(old(c.Snapshot()), amount).after
    ensures r == AddGoldSpec(old(c.Snapshot()), amount).result
  {
    if c.gold + amount < 0 {
      return Err(ValueError);
    }
    c.gold := c.gold + amount;
    return Ok(c.gold);
  }

  /** `heal_character`: nothing when health is already at or above the maximum; otherwise
      health rises to min(health + amount, max_health) and the rise is returned. */
  function HealSpec(d: CharacterData, amount: int): (CharacterData, int) {
    if d.health >= d.maxHealth then (d, 0)
    else
      var newHealth := if d.health + amount < d.maxHealth then d.health + amount else d.maxHealth;
      (d.(health := newHealth), newHealth - d.health)
  }

  /** Healing never passes max_health, returns exactly the change in health, and changes
      nothing else; a large enough amount restores full health. */
  lemma HealBounds(d: CharacterData, amount: int)
    requires d.health <= d.maxHealth && amount >= 0
    ensures var (a, healed) := HealSpec(d, amount);
      a == d.(health := a.health) && a.health == d.health + healed
      && 0 <= healed <= amount && a.health <= d.maxHealth
      && (amount >= d.maxHealth - d.health ==> a.health == d.maxHealth)
  {
  }

  method Heal(c: Character, amount: int) returns (healed: int)
    modifies c
    ensures (c.Snapshot(), healed) == HealSpec(old(c.Snapshot()), amount)
  {
    if c.health >= c.maxHealth {
      return 0;
    }
    var newHealth := if c.health + amount < c.maxHealth then c.health + amount else c.maxHealth;
    healed := newHealth - c.health;
    c.health := newHealth;
  }

  /** `is_character_dead`. */
  predicate IsCharacterDead(d: CharacterData)
    ensures IsCharacterDead(d) <==> ReviveSpec(d).1
  {
    d.health <= 0
  }

  /** `revive_character`: a living character is left alone (False); a dead one comes back with
      half its max_health, rounded down (True). */
  function ReviveSpec(d: CharacterData): (CharacterData, bool) {
    if d.health > 0 then (d, false) else (d.(health := d.maxHealth / 2), true)
  }

  /** Revival happens exactly for dead characters, and a revived character with max_health of
      at least 2 is no longer dead. */
  lemma ReviveOnlyTheDead(d: CharacterData)
    ensures var (a, revived) := ReviveSpec(d);
      (revived <==> IsCharacterDead(d)) && a == d.(health := a.health)
      && (!revived ==> a == d)
      && (revived ==> 2 * a.health <= d.maxHealth < 2 * a.health + 2)
      && (revived && d.maxHealth >= 2 ==> !IsCharacterDead(a))
  {
  }

  method Revive(c: Character) returns (revived: bool)
    modifies c
    ensures (c.Snapshot(), revived) == ReviveSpec(old(c.Snapshot()))
  {
    if c.health > 0 {
      return false;
    }
    c.health := c.maxHealth / 2;
    return true;
  }

  // ---------------------------------------------------------------------------
  // Validation of a loaded save dictionary
  // ---------------------------------------------------------------------------

  /** A value read back from a save file: Python `int` (a `bool` is an `int` too), `str`,
      `list` of strings, or `None`. */
  datatype SaveValue =
    | IntValue(i: int)
    | BoolValue(b: bool)
    | TextValue(s: string)
    | ListValue(items: seq<string>)
    | NoneValue

  predicate IsIntValue(v: SaveValue) {
    v.IntValue? || v.BoolValue?
  }

  const RequiredFields: seq<string> := ["name", "class", "level", "health", "max_health",
    "strength", "magic", "experience", "gold", "inventory", "active_quests", "completed_quests"]
  const NumericFields: seq<string> := ["level", "health", "max_health", "strength", "magic",
    "experience", "gold"]
  const ListFields: seq<string> := ["inventory", "active_quests", "completed_quests"]

  /** The first field of `fields` whose value fails `ok`; every field is present. */
  function FirstFailing(fields: seq<string>, m: map<string, SaveValue>, wantList: bool): (r: Option<string>)
    requires forall f :: f in fields ==> f in m
    ensures r.None? <==> forall f :: f in fields ==> HasKind(m[f], wantList)
    ensures r.Some? ==> exists k :: (0 <= k < |fields| && fields[k] == r.value
      && !HasKind(m[r.value], wantList) && forall j :: 0 <= j < k ==> HasKind(m[fields[j]], wantList))
  {
    if fields == [] then None
    else if !HasKind(m[fields[0]], wantList) then Some(fields[0])
    else
      var t := FirstFailing(fields[1..], m, wantList);
      assert forall f :: f in fields ==> f == fields[0] || f in fields[1..];
      if t.Some? then
        var k :| 0 <= k < |fields[1..]| && fields[1..][k] == t.value
          && !HasKind(m[t.value], wantList) && forall j :: 0 <= j < k ==> HasKind(m[fields[1..][j]], wantList);
        assert fields[k + 1] == t.value;
        t
      else t
  }

  /** `isinstance(v, list)` when `wantList`, else `isinstance(v, int)`. */
  predicate HasKind(v: SaveValue, wantList: bool) {
    if wantList then v.ListValue? else IsIntValue(v)
  }

  /** `validate_character_data`: the first missing required field, then the first numeric
      field that is not an integer, then the first list field that is not a list. */
  function ValidateCharacterData(m: map<string, SaveValue>): (r: Result<()>)
    ensures r.Ok? <==> ((forall f :: f in RequiredFields ==> f in m)
      && (forall f :: f in NumericFields ==> f in m && IsIntValue(m[f]))
      && (forall f :: f in ListFields ==> f in m && m[f].ListValue?))
    ensures r.Err? ==> r.error.InvalidSaveData?
    ensures r.Err? && r.error.issue.MissingField? ==> r.error.issue.field !in m
    ensures r.Err? && !r.error.issue.MissingField? ==> forall f :: f in RequiredFields ==> f in m
    ensures r.Err? && r.error.issue.NotList? ==> forall f :: f in NumericFields ==> IsIntValue(m[f])
    ensures FirstMissing(RequiredFields, m).Some? ==>
      r == Err(InvalidSaveData(MissingField(FirstMissing(RequiredFields, m).value)))
    ensures (forall f :: f in NumericFields ==> f in m) && FirstMissing(RequiredFields, m).None?
            && FirstFailing(NumericFields, m, false).Some? ==>
      r == Err(InvalidSaveData(NotInteger(FirstFailing(NumericFields, m, false).value)))
    ensures (forall f :: f in ListFields ==> f in m) && r.Err? && r.error.issue.NotList? ==>
      FirstFailing(ListFields, m, true) == Some(r.error.issue.field)
  {
    match FirstMissing(RequiredFields, m)
    case Some(f) => Err(InvalidSaveData(MissingField(f)))
    case None =>
      assert forall f :: f in NumericFields ==> f in RequiredFields;
      assert forall f :: f in ListFields ==> f in RequiredFields;
      match FirstFailing(NumericFields, m, false)
      case Some(f) => Err(InvalidSaveData(NotInteger(f)))
      case None =>
        match FirstFailing(ListFields, m, true)
        case Some(f) => Err(InvalidSaveData(NotList(f)))
        case None => Ok(())
  }

  /** The save dictionary of a record, as `save_character` would write and a faithful loader
      would read it back. */
  function SaveDictionary(d: CharacterData): map<string, SaveValue> {
    map["name" := TextValue(d.name), "class" := TextValue(d.charClass),
        "level" := IntValue(d.level), "health" := IntValue(d.health),
        "max_health" := IntValue(d.maxHealth), "strength" := IntValue(d.strength),
        "magic" := IntValue(d.magic), "experience" := IntValue(d.experience),
        "gold" := IntValue(d.gold), "inventory" := ListValue(d.inventory),
        "active_quests" := ListValue(d.activeQuests),
        "completed_quests" := ListValue(d.completedQuests)]
  }

  /** Every character record passes validation. */
  lemma RecordsValidate(d: CharacterData)
    ensures ValidateCharacterData(SaveDictionary(d)) == Ok(())
  {
    var m := SaveDictionary(d);
    assert forall f :: f in RequiredFields ==> f in m;
    assert forall f :: f in NumericFields ==> f in m && IsIntValue(m[f]);
    assert forall f :: f in ListFields ==> f in m && m[f].ListValue?;
  }

  /** Dropping any required field is reported as that field missing when it is the only gap. */
  lemma MissingFieldReported(d: CharacterData, f: string)
    requires f in RequiredFields
    ensures ValidateCharacterData(SaveDictionary(d) - {f}) == Err(InvalidSaveData(MissingField(f)))
  {
    var m := SaveDictionary(d) - {f};
    var r := FirstMissing(RequiredFields, m);
    assert r.Some?;
    var k :| 0 <= k < |RequiredFields| && RequiredFields[k] == r.value
      && r.value !in m && forall j :: 0 <= j < k ==> RequiredFields[j] in m;
  }
}
