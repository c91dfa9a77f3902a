/** combat_system.py: the enemy table, the damage formula, the class abilities and the
    turn-based `SimpleBattle`. The random draws (escape, rogue critical) are booleans, true
    when `random.random() < 0.5`; the player's menu choices are inputs. */
module Combat {
  import opened Outcomes
  import opened Characters

  // ---------------------------------------------------------------------------
  // Enemies
  // ---------------------------------------------------------------------------

  /** An enemy dictionary. */
  datatype EnemyData = EnemyData(
    name: string,
    health: int,
    maxHealth: int,
    strength: int,
    magic: int,
    xpReward: int,
    goldReward: int)

  /** An enemy during a battle: only its health changes. */
  class Enemy {
    var name: string
    var health: int
    var maxHealth: int
    var strength: int
    var magic: int
    var xpReward: int
    var goldReward: int

    function Snapshot(): (e: EnemyData)
      reads this
      ensures e.health == health && e.strength == strength && e.magic == magic
      ensures e.xpReward == xpReward && e.goldReward == goldReward
    {
      EnemyData(name, health, maxHealth, strength, magic, xpReward, goldReward)
    }

    constructor (e: EnemyData)
      ensures Snapshot() == e
    {
      name, health, maxHealth := e.name, e.health, e.maxHealth;
      strength, magic := e.strength, e.magic;
      xpReward, goldReward := e.xpReward, e.goldReward;
    }
  }

  predicate IsEnemyType(kind: string) {
    kind == "goblin" || kind == "orc" || kind == "dragon"
  }

  /** `create_enemy`: the fixed goblin, orc and dragon tables; InvalidTarget otherwise. */
  function CreateEnemy(kind: string): (r: Result<EnemyData>)
    ensures r.Ok? <==> IsEnemyType(kind)
    ensures r.Err? ==> r.error == InvalidTarget
    ensures r.Ok? ==> r.value.health == r.value.maxHealth > 0
  {
    if kind == "goblin" then Ok(EnemyData("Goblin", 50, 50, 8, 2, 25, 10))
    else if kind == "orc" then Ok(EnemyData("Orc", 80, 80, 12, 5, 50, 25))
    else if kind == "dragon" then Ok(EnemyData("Dragon", 200, 200, 25, 15, 200, 100))
    else Err(InvalidTarget)
  }

  /** The enemy type `get_random_enemy_for_level` picks: goblins up to level 2, orcs for 3 to 5,
      dragons from 6. */
  function EnemyTypeForLevel(level: int): (t: string)
    ensures IsEnemyType(t)
    ensures t == "goblin" <==> level <= 2
    ensures t == "dragon" <==> level >= 6
  {
    if level <= 2 then "goblin" else if level <= 5 then "orc" else "dragon"
  }

  /** `get_random_enemy_for_level`: always a known enemy, at full health. */
  function GetRandomEnemyForLevel(level: int): (r: Result<EnemyData>)
    ensures r.Ok? && r.value.health == r.value.maxHealth > 0
  {
    CreateEnemy(EnemyTypeForLevel(level))
  }

  /** The three enemies are, in order, tougher and more rewarding in every stat. */
  lemma CreateEnemyTable()
    ensures var g, o, d := CreateEnemy("goblin").value, CreateEnemy("orc").value,
                           CreateEnemy("dragon").value;
      g.name == "Goblin" && o.name == "Orc" && d.name == "Dragon"
      && (g.health, g.strength, g.magic, g.xpReward, g.goldReward) == (50, 8, 2, 25, 10)
      && (o.health, o.strength, o.magic, o.xpReward, o.goldReward) == (80, 12, 5, 50, 25)
      && (d.health, d.strength, d.magic, d.xpReward, d.goldReward) == (200, 25, 15, 200, 100)
  {
  }

  /** Every level gets an enemy, never a raise, and a higher level never gets a weaker or
      less rewarding one. */
  lemma EnemyForLevelMonotone(a: int, b: int)
    requires a <= b
    ensures GetRandomEnemyForLevel(a).Ok? && GetRandomEnemyForLevel(b).Ok?
    ensures var x, y := GetRandomEnemyForLevel(a).value, GetRandomEnemyForLevel(b).value;
      x.maxHealth <= y.maxHealth && x.strength <= y.strength && x.magic <= y.magic
      && x.xpReward <= y.xpReward && x.goldReward <= y.goldReward
  {
  }

  // ---------------------------------------------------------------------------
  // Damage
  // ---------------------------------------------------------------------------

  /** `calculate_damage`: attacker strength minus a quarter of the defender's (rounded down),
      at least 1. */
  function CalculateDamage(attackerStrength: int, defenderStrength: int): (r: int)
    ensures r >= 1
    ensures r == 1 || 4 * (attackerStrength - r) <= defenderStrength < 4 * (attackerStrength - r) + 4
    ensures r >= attackerStrength - defenderStrength / 4
  {
    var base := attackerStrength - defenderStrength / 4;
    if base > 1 then base else 1
  }

  /** `apply_damage`: health minus the damage, but never below 0. */
  function DamagedHealth(health: int, damage: int): (r: int)
    ensures r >= 0 && r >= health - damage
    ensures r == 0 || r == health - damage
    ensures damage >= 0 && health >= 0 ==> r <= health
  {
    if health - damage > 0 then health - damage else 0
  }

  // ---------------------------------------------------------------------------
  // Special abilities
  // ---------------------------------------------------------------------------

  /** The health a cleric's Heal leaves: 30 more, but not past the maximum. */
  function ClericHealed(health: int, maxHealth: int): int {
    if health + 30 > maxHealth then maxHealth else health + 30
  }

  /** The damage the attacking classes deal: Power Strike 2×strength, Fireball 2×magic,
      Critical Strike 3×strength on a winning draw and 1×strength otherwise. */
  function AbilityDamage(hero: CharacterData, critical: bool): int {
    if hero.charClass == "Warrior" then hero.strength * 2
    else if hero.charClass == "Mage" then hero.magic * 2
    else if critical then hero.strength * 3
    else hero.strength
  }

  /** `use_special_ability`: what the character's class does to the two records, and the
      message returned. */
  function SpecialAbilitySpec(hero: CharacterData, foe: EnemyData, critical: bool)
    : (CharacterData, EnemyData, string)
  {
    var cls := hero.charClass;
    if cls == "Warrior" || cls == "Mage" || cls == "Rogue" then
      var message := if cls == "Warrior" then hero.name + " uses Power Strike!"
                     else if cls == "Mage" then hero.name + " casts Fireball!"
                     else hero.name + " attempts a Critical Strike!";
      (hero, foe.(health := DamagedHealth(foe.health, AbilityDamage(hero, critical))), message)
    else if cls == "Cleric" then
      (hero.(health := ClericHealed(hero.health, hero.maxHealth)), foe, hero.name + " casts Heal!")
    else (hero, foe, "No special ability available.")
  }

  /** Each class's ability, as the source describes it: the attackers take their damage off
      the enemy's health (never below 0) and leave the character alone; Heal restores up to 30
      health without passing the maximum and leaves the enemy alone; any other class does
      nothing. */
  lemma SpecialAbilityEffects(hero: CharacterData, foe: EnemyData, critical: bool)
    ensures var (h, f, _) := SpecialAbilitySpec(hero, foe, critical);
      var cls := hero.charClass;
      var dmg := if cls == "Warrior" then 2 * hero.strength
                 else if cls == "Mage" then 2 * hero.magic
                 else if critical then 3 * hero.strength else hero.strength;
      ((cls == "Warrior" || cls == "Mage" || cls == "Rogue") ==>
         h == hero && f == foe.(health := f.health) && f.health >= 0
         && (f.health == 0 || f.health == foe.health - dmg) && f.health >= foe.health - dmg)
      && (cls == "Cleric" ==>
           f == foe && h == hero.(health := h.health)
           && h.health <= hero.maxHealth && h.health <= hero.health + 30
           && (h.health == hero.maxHealth || h.health == hero.health + 30))
      && (!IsValidClass(cls) ==> h == hero && f == foe)
  {
  }

  /** Heal keeps the character's health within [0, max_health]. */
  lemma ClericHealInRange(health: int, maxHealth: int)
    requires 0 <= health <= maxHealth
    ensures health <= ClericHealed(health, maxHealth) <= maxHealth
  {
  }

  method WarriorPowerStrike(c: Character, e: Enemy) returns (damage: int)
    modifies e
    ensures damage == 2 * c.strength
    ensures e.Snapshot() == old(e.Snapshot()).(health := DamagedHealth(old(e.health), damage))
  {
    damage := c.strength * 2;
    e.health := e.health - damage;
    if e.health < 0 {
      e.health := 0;
    }
  }

  method MageFireball(c: Character, e: Enemy) returns (damage: int)
    modifies e
    ensures damage == 2 * c.magic
    ensures e.Snapshot() == old(e.Snapshot()).(health := DamagedHealth(old(e.health), damage))
  {
    damage := c.magic * 2;
    e.health := e.health - damage;
    if e.health < 0 {
      e.health := 0;
    }
  }

  method RogueCriticalStrike(c: Character, e: Enemy, critical: bool) returns (damage: int)
    modifies e
    ensures damage == if critical then 3 * c.strength else c.strength
    ensures e.Snapshot() == old(e.Snapshot()).(health := DamagedHealth(old(e.health), damage))
  {
    if critical {
      damage := c.strength * 3;
    } else {
      damage := c.strength;
    }
    e.health := e.health - damage;
    if e.health < 0 {
      e.health := 0;
    }
  }

  method ClericHeal(c: Character) returns (amount: int)
    modifies c
    ensures amount == 30
    ensures c.Snapshot() == old(c.Snapshot()).(health := ClericHealed(old(c.health), c.maxHealth))
  {
    amount := 30;
    if c.health + amount > c.maxHealth {
      c.health := c.maxHealth;
    } else {
      c.health := c.health + amount;
    }
  }

  method UseSpecialAbility(c: Character, e: Enemy, critical: bool) returns (message: string)
    modifies c, e
    ensures (c.Snapshot(), e.Snapshot(), message)
            == SpecialAbilitySpec(old(c.Snapshot()), old(e.Snapshot()), critical)
  {
    var cls := c.charClass;
    if cls == "Warrior" {
      var _ := WarriorPowerStrike(c, e);
      message := c.name + " uses Power Strike!";
    } else if cls == "Mage" {
      var _ := MageFireball(c, e);
      message := c.name + " casts Fireball!";
    } else if cls == "Rogue" {
      var _ := RogueCriticalStrike(c, e, critical);
      message := c.name + " attempts a Critical Strike!";
    } else if cls == "Cleric" {
      var _ := ClericHeal(c);
      message := c.name + " casts Heal!";
    } else {
      message := "No special ability available.";
    }
  }

  // ---------------------------------------------------------------------------
  // Battle
  // ---------------------------------------------------------------------------

  datatype Winner = PlayerSide | EnemySide

  /** The dictionary `start_battle` returns: winner, xp_gained, gold_gained. */
  datatype BattleResult = BattleResult(winner: Winner, xpGained: int, goldGained: int)

  /** A battle's records and its `combat_active` flag. */
  datatype BattleState = BattleState(hero: CharacterData, foe: EnemyData, active: bool)

  /** `get_victory_rewards`. */
  datatype Rewards = Rewards(xp: int, gold: int)

  function GetVictoryRewards(foe: EnemyData): Rewards {
    Rewards(foe.xpReward, foe.goldReward)
  }

  /** A higher level never pays less for a victory over the enemy it is given. */
  lemma VictoryRewardsGrowWithLevel(a: int, b: int)
    requires a <= b
    ensures var x, y := GetVictoryRewards(GetRandomEnemyForLevel(a).value),
                        GetVictoryRewards(GetRandomEnemyForLevel(b).value);
      0 < x.xp <= y.xp && 0 < x.gold <= y.gold
  {
    EnemyForLevelMonotone(a, b);
    CreateEnemyTable();
  }

  /** `can_character_fight`. */
  predicate CanCharacterFight(hero: CharacterData)
    ensures CanCharacterFight(hero) <==> !IsCharacterDead(hero)
  {
    hero.health > 0
  }

  /** `check_battle_end`: the player has won when the enemy is down, checked first. */
  function CheckBattleEnd(s: BattleState): (w: Option<Winner>)
    ensures w.None? <==> s.foe.health > 0 && CanCharacterFight(s.hero)
    ensures w == Some(EnemySide) <==> s.foe.health > 0 && IsCharacterDead(s.hero)
  {
    if s.foe.health <= 0 then Some(PlayerSide)
    else if s.hero.health <= 0 then Some(EnemySide)
    else None
  }

  /** `attempt_escape`: a winning draw ends the battle. */
  function EscapeSpec(s: BattleState, draw: bool): (BattleState, bool) {
    if draw then (s.(active := false), true) else (s, false)
  }

  /** `player_turn`: CombatNotActive outside a battle; "1" attacks, "2" uses the class
      ability, "3" tries to escape, anything else does nothing. */
  function PlayerTurnSpec(s: BattleState, choice: string, draw: bool): (BattleState, Result<()>) {
    if !s.active then (s, Err(CombatNotActive))
    else if choice == "1" then
      var dmg := CalculateDamage(s.hero.strength, s.foe.strength);
      (s.(foe := s.foe.(health := DamagedHealth(s.foe.health, dmg))), Ok(()))
    else if choice == "2" then
      var (h, f, _) := SpecialAbilitySpec(s.hero, s.foe, draw);
      (s.(hero := h, foe := f), Ok(()))
    else if choice == "3" then (EscapeSpec(s, draw).0, Ok(()))
    else (s, Ok(()))
  }

  /** `enemy_turn`: CombatNotActive outside a battle; otherwise the enemy attacks. */
  function EnemyTurnSpec(s: BattleState): (BattleState, Result<()>) {
    if !s.active then (s, Err(CombatNotActive))
    else
      var dmg := CalculateDamage(s.foe.strength, s.hero.strength);
      (s.(hero := s.hero.(health := DamagedHealth(s.hero.health, dmg))), Ok(()))
  }

  /** One pass of the `start_battle` loop: the player acts; a dead enemy ends the battle in
      the player's favour before the enemy can act; otherwise the enemy acts and a dead
      character ends it in the enemy's favour. `Ok(None)` means the loop goes on. */
  function RoundSpec(s: BattleState, choice: string, draw: bool)
    : (BattleState, Result<Option<BattleResult>>)
  {
    var (s1, played) := PlayerTurnSpec(s, choice, draw);
    if played.Err? then (s1, Err(played.error))
    else if s1.foe.health <= 0 then
      (s1.(active := false), Ok(Some(BattleResult(PlayerSide, s1.foe.xpReward, s1.foe.goldReward))))
    else
      var (s2, attacked) := EnemyTurnSpec(s1);
      if attacked.Err? then (s2, Err(attacked.error))
      else if s2.hero.health <= 0 then (s2.(active := false), Ok(Some(BattleResult(EnemySide, 0, 0))))
      else (s2, Ok(None))
  }

  /** The `start_battle` loop over the player's inputs (a menu choice and a draw per turn):
      it returns None at once when the battle is not active, and running out of input is
      EOFError. */
  function BattleSpec(s: BattleState, inputs: seq<(string, bool)>)
    : (BattleState, Result<Option<BattleResult>>)
    decreases |inputs|
  {
    if !s.active then (s, Ok(None))
    else if inputs == [] then (s, Err(EndOfInput))
    else
      var (s1, r) := RoundSpec(s, inputs[0].0, inputs[0].1);
      if r.Err? || r.value.Some? then (s1, r) else BattleSpec(s1, inputs[1..])
  }

  /** `start_battle`: CharacterDead before any turn when health is at most 0. */
  function StartBattleSpec(s: BattleState, inputs: seq<(string, bool)>)
    : (BattleState, Result<Option<BattleResult>>)
  {
    if s.hero.health <= 0 then (s, Err(CharacterDead)) else BattleSpec(s, inputs)
  }

  /** A character who cannot fight is refused before any turn, with nothing changed. */
  lemma StartBattleNeedsLiveCharacter(s: BattleState, inputs: seq<(string, bool)>)
    ensures !CanCharacterFight(s.hero) ==> StartBattleSpec(s, inputs) == (s, Err(CharacterDead))
    ensures CanCharacterFight(s.hero) ==> StartBattleSpec(s, inputs) == BattleSpec(s, inputs)
  {
  }

  /** When the player's action brings the enemy down, the round ends in victory with the
      enemy's rewards, the battle is over, and the enemy never attacks. */
  lemma KillingBlowEndsRound(s: BattleState, choice: string, draw: bool)
    requires s.active
    requires PlayerTurnSpec(s, choice, draw).0.foe.health <= 0
    ensures var (after, r) := RoundSpec(s, choice, draw);
      var rewards := GetVictoryRewards(s.foe);
      r == Ok(Some(BattleResult(PlayerSide, rewards.xp, rewards.gold)))
      && !after.active && after.hero == PlayerTurnSpec(s, choice, draw).0.hero
      && CheckBattleEnd(after) == Some(PlayerSide)
  {
  }

  /** When the enemy's attack brings the character down, the round ends in defeat with no
      rewards and the battle is over. */
  lemma EnemyKillEndsRound(s: BattleState, choice: string, draw: bool)
    requires s.active && PlayerTurnSpec(s, choice, draw).0.active
    requires PlayerTurnSpec(s, choice, draw).0.foe.health > 0
    requires EnemyTurnSpec(PlayerTurnSpec(s, choice, draw).0).0.hero.health <= 0
    ensures var (after, r) := RoundSpec(s, choice, draw);
      r == Ok(Some(BattleResult(EnemySide, 0, 0))) && !after.active
      && CheckBattleEnd(after) == Some(EnemySide)
  {
  }

  /** A round that goes on leaves both sides standing and the battle active. */
  lemma RoundContinues(s: BattleState, choice: string, draw: bool)
    requires RoundSpec(s, choice, draw).1 == Ok(None)
    ensures var after := RoundSpec(s, choice, draw).0;
      after.active && CheckBattleEnd(after) == None
  {
  }

  /** A successful escape does not end the battle cleanly: the enemy's turn that follows
      raises CombatNotActive, with the records untouched. */
  lemma EscapeThenEnemyTurnFails(s: BattleState)
    requires s.active && s.foe.health > 0
    ensures RoundSpec(s, "3", true) == (s.(active := false), Err(CombatNotActive))
  {
  }

  /** A failed escape costs the turn: the enemy attacks and nothing else happens. */
  lemma FailedEscapeOnlyEnemyActs(s: BattleState)
    requires s.active && s.foe.health > 0
    ensures var after := RoundSpec(s, "3", false).0;
      after.foe == s.foe
      && after.hero == s.hero.(health := DamagedHealth(s.hero.health,
                                                       CalculateDamage(s.foe.strength, s.hero.strength)))
  {
  }

  /** What keeps a battle's health values sensible. */
  predicate HealthInRange(s: BattleState) {
    0 <= s.hero.health <= s.hero.maxHealth && 0 <= s.foe.health
  }

  /** A round keeps the character's health within [0, max_health] and the enemy's at or
      above 0. */
  lemma RoundKeepsHealthInRange(s: BattleState, choice: string, draw: bool)
    requires HealthInRange(s)
    ensures HealthInRange(RoundSpec(s, choice, draw).0)
  {
    var (s1, _) := PlayerTurnSpec(s, choice, draw);
    if s.active && choice == "2" {
      SpecialAbilityEffects(s.hero, s.foe, draw);
    }
    assert HealthInRange(s1);
  }

  /** Over a whole battle: health stays in range, a victory pays exactly the enemy's
      rewards, a defeat pays nothing, every finished battle is inactive, and the loop returns
      nothing only when the battle was not active to begin with. */
  lemma {:induction false} BattleOutcome(s: BattleState, inputs: seq<(string, bool)>)
    requires HealthInRange(s)
    ensures var (after, r) := BattleSpec(s, inputs);
      HealthInRange(after) && after.foe.xpReward == s.foe.xpReward
      && after.foe.goldReward == s.foe.goldReward
      && (r.Ok? && r.value.Some? ==>
            !after.active
            && (r.value.value.winner == PlayerSide ==>
                  Rewards(r.value.value.xpGained, r.value.value.goldGained) == GetVictoryRewards(s.foe))
            && (r.value.value.winner == EnemySide ==>
                  r.value.value.xpGained == 0 && r.value.value.goldGained == 0))
      && (r == Ok(None) ==> !s.active && after == s)
    decreases |inputs|
  {
    if s.active && inputs != [] {
      var (s1, r) := RoundSpec(s, inputs[0].0, inputs[0].1);
      RoundKeepsHealthInRange(s, inputs[0].0, inputs[0].1);
      if !(r.Err? || r.value.Some?) {
        RoundContinues(s, inputs[0].0, inputs[0].1);
        BattleOutcome(s1, inputs[1..]);
      }
    }
  }

  /** `SimpleBattle`: the two records it fights over and the `combat_active` flag. */
  class SimpleBattle {
    const character: Character
    const enemy: Enemy
    var combatActive: bool

    function State(): BattleState
      reads this, character, enemy
    {
      BattleState(character.Snapshot(), enemy.Snapshot(), combatActive)
    }

    constructor (c: Character, e: Enemy)
      ensures character == c && enemy == e && combatActive
    {
      character, enemy := c, e;
      combatActive := true;
    }

    method AttemptEscape(draw: bool) returns (escaped: bool)
      modifies this
      ensures (State(), escaped) == EscapeSpec(old(State()), draw)
    {
      if draw {
        combatActive := false;
        return true;
      }
      return false;
    }

    method PlayerTurn(choice: string, draw: bool) returns (r: Result<()>)
      modifies this, character, enemy
      ensures (State(), r) == PlayerTurnSpec(old(State()), choice, draw)
    {
      if !combatActive {
        return Err(CombatNotActive);
      }
      if choice == "1" {
        var damage := CalculateDamage(character.strength, enemy.strength);
        enemy.health := DamagedHealth(enemy.health, damage);
      } else if choice == "2" {
        var _ := UseSpecialAbility(character, enemy, draw);
      } else if choice == "3" {
        var _ := AttemptEscape(draw);
      }
      return Ok(());
    }

    method EnemyTurn() returns (r: Result<()>)
      modifies character
      ensures (State(), r) == EnemyTurnSpec(old(State()))
    {
      if !combatActive {
        return Err(CombatNotActive);
      }
      var damage := CalculateDamage(enemy.strength, character.strength);
      character.health := DamagedHealth(character.health, damage);
      return Ok(());
    }

    method Round(choice: string, draw: bool) returns (r: Result<Option<BattleResult>>)
      modifies this, character, enemy
      ensures (State(), r) == RoundSpec(old(State()), choice, draw)
    {
      var played := PlayerTurn(choice, draw);
      if played.Err? {
        return Err(played.error);
      }
      if enemy.health <= 0 {
        combatActive := false;
        return Ok(Some(BattleResult(PlayerSide, enemy.xpReward, enemy.goldReward)));
      }
      var attacked := EnemyTurn();
      if attacked.Err? {
        return Err(attacked.error);
      }
      if character.health <= 0 {
        combatActive := false;
        return Ok(Some(BattleResult(EnemySide, 0, 0)));
      }
      return Ok(None);
    }

    method StartBattle(inputs: seq<(string, bool)>) returns (r: Result<Option<BattleResult>>)
      modifies this, character, enemy
      ensures (State(), r) == StartBattleSpec(old(State()), inputs)
    {
      if character.health <= 0 {
        return Err(CharacterDead);
      }
      var i := 0;
      while combatActive
        invariant 0 <= i <= |inputs|
        invariant BattleSpec(old(State()), inputs) == BattleSpec(State(), inputs[i..])
        decreases |inputs| - i
      {
        if i == |inputs| {
          return Err(EndOfInput);
        }
        assert inputs[i..][1..] == inputs[i + 1..];
        var (choice, draw) := inputs[i];
        r := Round(choice, draw);
        if r.Err? || r.value.Some? {
          return;
        }
        i := i + 1;
      }
      return Ok(None);
    }
  }
}
