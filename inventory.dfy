/** inventory_system.py: the bounded inventory, consumables, weapon and armor slots, and the
    shop. Every operation mutates the character; each is specified by a function from the
    record before to the record after and the result, and the methods are proved to follow it. */
module Inventory {
  import opened Outcomes
  import opened Lists
  import opened Characters
  import opened Effects

  /** `MAX_INVENTORY_SIZE`. */
  const MaxInventorySize := 20

  /** An item dictionary as loaded from the item file. */
  datatype Item = Item(
    itemId: string,
    name: string,
    itemType: string,
    effect: string,
    cost: int,
    description: string)

  // ---------------------------------------------------------------------------
  // Inventory management
  // ---------------------------------------------------------------------------

  /** `add_item_to_inventory`: InventoryFull at 20 items, otherwise the id goes at the end. */
  function AddItemSpec(d: CharacterData, id: string): Step<bool> {
    if |d.inventory| >= MaxInventorySize then Step(d, Err(InventoryFull))
    else Step(d.(inventory := d.inventory + [id]), Ok(true))
  }

  /** `remove_item_from_inventory`: ItemNotFound when absent, otherwise the first copy goes. */
  function RemoveItemSpec(d: CharacterData, id: string): Step<bool> {
    if id !in d.inventory then Step(d, Err(ItemNotFound))
    else Step(d.(inventory := RemoveFirst(d.inventory, id)), Ok(true))
  }

  /** `has_item`: held exactly when `count_item` is positive. */
  predicate HasItem(d: CharacterData, id: string)
    ensures HasItem(d, id) <==> CountItem(d, id) > 0
  {
    id in d.inventory
  }

  /** `count_item`: the number of copies, which is at most the inventory's length. */
  function CountItem(d: CharacterData, id: string): (n: nat)
    ensures n == multiset(d.inventory)[id] && n <= |d.inventory|
  {
    assert multiset(d.inventory)[id] <= |multiset(d.inventory)| by {
      MultiplicityBound(multiset(d.inventory), id);
    }
    Count(d.inventory, id)
  }

  lemma MultiplicityBound(m: multiset<string>, x: string)
    ensures m[x] <= |m|
  {
    var rest := m[x := 0];
    assert m == rest + multiset{}[x := m[x]];
  }

  /** `get_inventory_space_remaining`: within [0, 20] for an inventory within its bound, and
      positive exactly when an add would succeed. */
  function SpaceRemaining(d: CharacterData): (n: int)
    ensures |d.inventory| <= MaxInventorySize ==> 0 <= n <= MaxInventorySize
    ensures forall id :: n > 0 <==> AddItemSpec(d, id).result.Ok?
  {
    MaxInventorySize - |d.inventory|
  }

  /** `clear_inventory`: the record with an empty inventory, and the items it held. */
  function ClearSpec(d: CharacterData): (CharacterData, seq<string>) {
    (d.(inventory := []), d.inventory)
  }

  /** Adding never takes the inventory past 20: it succeeds exactly when there is room, puts
      one more copy of the id at the end, and uses up one slot; a failed add changes nothing. */
  lemma AddItemKeepsBound(d: CharacterData, id: string)
    requires |d.inventory| <= MaxInventorySize
    ensures var s := AddItemSpec(d, id);
      |s.after.inventory| <= MaxInventorySize
      && (s.result.Ok? <==> SpaceRemaining(d) > 0)
      && (s.result.Err? ==> s.result.error == InventoryFull && s.after == d)
      && (s.result.Ok? ==>
            s.after.inventory[..|d.inventory|] == d.inventory
            && s.after.inventory[|d.inventory|] == id
            && CountItem(s.after, id) == CountItem(d, id) + 1
            && SpaceRemaining(s.after) == SpaceRemaining(d) - 1)
      && s.after == d.(inventory := s.after.inventory)
  {
    var s := AddItemSpec(d, id);
    if s.result.Ok? {
      assert multiset(s.after.inventory) == multiset(d.inventory) + multiset{id};
    }
  }

  /** Removing takes out exactly one copy of a held id and keeps the order of the rest; an
      absent id raises and changes nothing. */
  lemma RemoveItemTakesOneCopy(d: CharacterData, id: string)
    ensures var s := RemoveItemSpec(d, id);
      (s.result.Ok? <==> HasItem(d, id))
      && (s.result.Err? ==> s.result.error == ItemNotFound && s.after == d)
      && (s.result.Ok? ==>
            multiset(s.after.inventory) == multiset(d.inventory) - multiset{id}
            && CountItem(s.after, id) == CountItem(d, id) - 1
            && s.after.inventory == d.inventory[..FirstIndex(d.inventory, id)]
                                    + d.inventory[FirstIndex(d.inventory, id) + 1..])
      && s.after == d.(inventory := s.after.inventory)
  {
    assert HasItem(d, id) <==> id in d.inventory;
    if id in d.inventory {
      RemoveHeldItem(d, id);
    } else {
      assert RemoveItemSpec(d, id) == Step(d, Err(ItemNotFound));
    }
  }

  lemma RemoveHeldItem(d: CharacterData, id: string)
    requires id in d.inventory
    ensures var s := RemoveItemSpec(d, id);
      s.result == Ok(true)
      && multiset(s.after.inventory) == multiset(d.inventory) - multiset{id}
      && CountItem(s.after, id) == CountItem(d, id) - 1
      && s.after.inventory == d.inventory[..FirstIndex(d.inventory, id)]
                              + d.inventory[FirstIndex(d.inventory, id) + 1..]
      && s.after == d.(inventory := s.after.inventory)
  {
    var rest := RemoveFirst(d.inventory, id);
    var a := d.(inventory := rest);
    assert RemoveItemSpec(d, id) == Step(a, Ok(true));
    assert rest == d.inventory[..FirstIndex(d.inventory, id)] + d.inventory[FirstIndex(d.inventory, id) + 1..] by {
      RemoveFirstShape(d.inventory, id);
    }
    var before := multiset(d.inventory);
    assert multiset(rest) == before - multiset{id} by {
      RemoveFirstMultiset(d.inventory, id);
    }
    assert CountItem(a, id) == CountItem(d, id) - 1 by {
      assert before[id] >= 1 && multiset{id}[id] == 1;
      assert multiset(rest)[id] == before[id] - 1;
    }
  }

  /** Adding an id the inventory did not hold and removing it again gives the record back. */
  lemma AddThenRemove(d: CharacterData, id: string)
    requires !HasItem(d, id) && SpaceRemaining(d) > 0
    ensures RemoveItemSpec(AddItemSpec(d, id).after, id) == Step(d, Ok(true))
  {
    RemoveFirstAppended(d.inventory, id);
  }

  /** Clearing hands back every item held and leaves all 20 slots free, changing nothing else. */
  lemma ClearEmptiesInventory(d: CharacterData)
    ensures var (a, removed) := ClearSpec(d);
      removed == d.inventory && SpaceRemaining(a) == MaxInventorySize
      && (forall id :: !HasItem(a, id))
      && a == d.(inventory := [])
  {
  }

  method AddItem(c: Character, id: string) returns (r: Result<bool>)
    modifies c
    ensures c.Snapshot() == AddItemSpec(old(c.Snapshot()), id).after
    ensures r == AddItemSpec(old(c.Snapshot()), id).result
  {
    if |c.inventory| >= MaxInventorySize {
      return Err(InventoryFull);
    }
    c.inventory := c.inventory + [id];
    return Ok(true);
  }

  method RemoveItem(c: Character, id: string) returns (r: Result<bool>)
    modifies c
    ensures c.Snapshot() == RemoveItemSpec(old(c.Snapshot()), id).after
    ensures r == RemoveItemSpec(old(c.Snapshot()), id).result
  {
    if id !in c.inventory {
      return Err(ItemNotFound);
    }
    c.inventory := RemoveFirst(c.inventory, id);
    return Ok(true);
  }

  method ClearInventory(c: Character) returns (removed: seq<string>)
    modifies c
    ensures (c.Snapshot(), removed) == ClearSpec(old(c.Snapshot()))
  {
    removed := c.inventory;
    c.inventory := [];
  }

  // ---------------------------------------------------------------------------
  // Item usage
  // ---------------------------------------------------------------------------

  /** `use_item`: ItemNotFound, then InvalidItemType for anything but a consumable; then the
      effect string is parsed (a ValueError changes nothing), its stats are added one by one
      (a TypeError keeps the ones already added), and one copy is used up. The result is the
      parsed effects. */
  function UseItemSpec(d: CharacterData, id: string, item: Item): Step<Effects> {
    if id !in d.inventory then Step(d, Err(ItemNotFound))
    else if item.itemType != "consumable" then Step(d, Err(InvalidItemType))
    else
      match ParseEffectString(item.effect)
      case Err(e) => Step(d, Err(e))
      case Ok(es) =>
        var s := ApplyEffectsTo(d, es, false);
        if s.result.Err? then Step(s.after, Err(s.result.error))
        else
          Step(RemoveItemSpec(s.after, id).after, Ok(es))
  }

  /** Using an item fails in the source's order of checks; a failure before the stats are
      touched changes nothing; a success applies the parsed effects and uses up exactly one
      copy of the item. */
  lemma UseItemOutcome(d: CharacterData, id: string, item: Item)
    ensures var s := UseItemSpec(d, id, item);
      (!HasItem(d, id) ==> s == Step(d, Err(ItemNotFound)))
      && (HasItem(d, id) && item.itemType != "consumable" ==> s == Step(d, Err(InvalidItemType)))
      && ((HasItem(d, id) && item.itemType == "consumable" && ParseEffectString(item.effect).Err?)
            ==> s == Step(d, Err(ValueError)))
      && (s.result.Ok? <==>
            HasItem(d, id) && item.itemType == "consumable" && ParseEffectString(item.effect).Ok?
            && forall i :: 0 <= i < |ParseEffectString(item.effect).value| ==>
                 !IsNonNumericKey(ParseEffectString(item.effect).value[i].0))
      && (s.result.Ok? ==>
            s.result.value == ParseEffectString(item.effect).value
            && s.after == ApplyEffectsTo(d, s.result.value, false).after.(inventory := s.after.inventory)
            && multiset(s.after.inventory) == multiset(d.inventory) - multiset{id})
  {
    if HasItem(d, id) && item.itemType == "consumable" && ParseEffectString(item.effect).Ok? {
      var es := ParseEffectString(item.effect).value;
      var a := ApplyEffectsTo(d, es, false);
      ApplyEffectsOutcome(d, es, false);
      if a.result.Ok? {
        RemoveFirstMultiset(d.inventory, id);
      }
    }
  }

  /** A consumable whose effects leave health and the non-integer keys alone moves every stat
      by exactly the amounts it names. */
  lemma UseItemAddsEffects(d: CharacterData, id: string, item: Item, es: Effects)
    requires HasItem(d, id) && item.itemType == "consumable"
    requires ParseEffectString(item.effect) == Ok(es)
    requires forall i :: 0 <= i < |es| ==> !IsNonNumericKey(es[i].0) && es[i].0 != "health"
    ensures var s := UseItemSpec(d, id, item);
      s.result == Ok(es) && s.after.health == d.health
      && forall k :: StatValue(s.after, k) == StatValue(d, k) + SumFor(es, k)
  {
    var a := ApplyEffectsTo(d, es, false);
    ApplyEffectsAdds(d, es, false);
    ApplyEffectsOutcome(d, es, false);
    assert id in a.after.inventory;
    var s := UseItemSpec(d, id, item);
    assert s == Step(a.after.(inventory := RemoveFirst(a.after.inventory, id)), Ok(es));
    SameStatValues(s.after, a.after);
  }

  /** Using a potion never takes health outside [0, max_health]. */
  lemma UseItemKeepsHealthInRange(d: CharacterData, id: string, item: Item)
    requires 0 <= d.health <= d.maxHealth
    requires ParseEffectString(item.effect).Ok?
    requires forall i :: 0 <= i < |ParseEffectString(item.effect).value| ==>
               ParseEffectString(item.effect).value[i].0 != "max_health"
    ensures var s := UseItemSpec(d, id, item); 0 <= s.after.health <= s.after.maxHealth
  {
    var es := ParseEffectString(item.effect).value;
    var a := ApplyEffectsTo(d, es, false);
    ApplyEffectsKeepHealthInRange(d, es, false);
    var s := UseItemSpec(d, id, item);
    assert s.after == d || s.after == a.after || s.after == RemoveItemSpec(a.after, id).after;
  }

  method UseItem(c: Character, id: string, item: Item) returns (r: Result<Effects>)
    modifies c
    ensures c.Snapshot() == UseItemSpec(old(c.Snapshot()), id, item).after
    ensures r == UseItemSpec(old(c.Snapshot()), id, item).result
  {
    if id !in c.inventory {
      return Err(ItemNotFound);
    }
    if item.itemType != "consumable" {
      return Err(InvalidItemType);
    }
    var parsed := ParseEffects(item.effect);
    if parsed.Err? {
      return Err(parsed.error);
    }
    var applied := ApplyEffectList(c, parsed.value, false);
    if applied.Err? {
      return Err(applied.error);
    }
    var _ := RemoveItem(c, id);
    return Ok(parsed.value);
  }

  // ---------------------------------------------------------------------------
  // Equipment
  // ---------------------------------------------------------------------------

  /** The two equipment slots, `equipped_weapon` and `equipped_armor`. */
  datatype Slot = WeaponSlot | ArmorSlot

  /** The item type a slot accepts. */
  function SlotType(slot: Slot): string {
    match slot
    case WeaponSlot => "weapon"
    case ArmorSlot => "armor"
  }

  function SlotValue(d: CharacterData, slot: Slot): Option<string> {
    match slot
    case WeaponSlot => d.equippedWeapon
    case ArmorSlot => d.equippedArmor
  }

  function SetSlot(d: CharacterData, slot: Slot, v: Option<string>): (a: CharacterData)
    ensures SlotValue(a, slot) == v
    ensures slot.WeaponSlot? ==> a == d.(equippedWeapon := v)
    ensures slot.ArmorSlot? ==> a == d.(equippedArmor := v)
  {
    match slot
    case WeaponSlot => d.(equippedWeapon := v)
    case ArmorSlot => d.(equippedArmor := v)
  }

  /** Python truthiness of the slot: something other than None or the empty string. */
  predicate Occupied(v: Option<string>) {
    v.Some? && v.value != ""
  }

  /** The effect string of a previously equipped item, looked up in the character's item
      table; an unknown item has the empty effect. */
  function KnownEffect(known: map<string, Item>, id: string): string {
    if id in known then known[id].effect else ""
  }

  /** Taking an item off: its effect string is parsed (ValueError changes nothing), its stats
      are subtracted, and it goes back into the inventory (InventoryFull after the stats). */
  function TakeOff(d: CharacterData, id: string, effect: string): Step<()> {
    match ParseEffectString(effect)
    case Err(e) => Step(d, Err(e))
    case Ok(es) =>
      var s := ApplyEffectsTo(d, es, true);
      if s.result.Err? then s
      else
        var added := AddItemSpec(s.after, id);
        Step(added.after, if added.result.Ok? then Ok(()) else Err(added.result.error))
  }

  /** Putting an item on: the slot is set first, then its effects are parsed and added, then
      the item leaves the inventory. */
  function PutOn(d: CharacterData, id: string, item: Item, slot: Slot): Step<bool> {
    var d1 := SetSlot(d, slot, Some(id));
    match ParseEffectString(item.effect)
    case Err(e) => Step(d1, Err(e))
    case Ok(es) =>
      var s := ApplyEffectsTo(d1, es, false);
      if s.result.Err? then Step(s.after, Err(s.result.error))
      else RemoveItemSpec(s.after, id)
  }

  /** `equip_weapon` / `equip_armor`: ItemNotFound, then InvalidItemType; an occupied slot is
      emptied first (its item's effect looked up in `known`), then the new item goes on. */
  function EquipSpec(d: CharacterData, id: string, item: Item, known: map<string, Item>, slot: Slot)
    : Step<bool>
  {
    if id !in d.inventory then Step(d, Err(ItemNotFound))
    else if item.itemType != SlotType(slot) then Step(d, Err(InvalidItemType))
    else
      var current := SlotValue(d, slot);
      var off := if Occupied(current) then TakeOff(d, current.value, KnownEffect(known, current.value))
                 else Step(d, Ok(()));
      if off.result.Err? then Step(off.after, Err(off.result.error))
      else PutOn(off.after, id, item, slot)
  }

  /** `unequip_item`: an empty slot returns None and changes nothing; otherwise the item's
      effects (from the given item data) are subtracted, it returns to the inventory, the slot
      is cleared, and its id is returned. */
  function UnequipSpec(d: CharacterData, item: Item, slot: Slot): Step<Option<string>> {
    var current := SlotValue(d, slot);
    if !Occupied(current) then Step(d, Ok(None))
    else
      var off := TakeOff(d, current.value, item.effect);
      if off.result.Err? then Step(off.after, Err(off.result.error))
      else Step(SetSlot(off.after, slot, None), Ok(Some(current.value)))
  }

  /** What taking an item off does to a record when it succeeds: one more copy in the
      inventory, the other slot and the rest of the record untouched. */
  lemma TakeOffShape(d: CharacterData, id: string, effect: string)
    ensures var s := TakeOff(d, id, effect);
      SameNonStats(d, s.after.(inventory := d.inventory))
      && (s.result.Ok? ==> s.after.inventory == d.inventory + [id])
      && (s.result.Err? ==> s.after.inventory == d.inventory)
  {
    if ParseEffectString(effect).Ok? {
      ApplyEffectsOutcome(d, ParseEffectString(effect).value, true);
    }
  }

  /** What putting an item on does when it succeeds: the item sits in the slot and one copy
      has left the inventory. */
  lemma PutOnShape(d: CharacterData, id: string, item: Item, slot: Slot)
    ensures var s := PutOn(d, id, item, slot);
      SlotValue(s.after, slot) == Some(id)
      && (s.result.Ok? ==> id in d.inventory && s.after.inventory == RemoveFirst(d.inventory, id))
  {
    var d1 := SetSlot(d, slot, Some(id));
    if ParseEffectString(item.effect).Ok? {
      ApplyEffectsOutcome(d1, ParseEffectString(item.effect).value, false);
    }
  }

  /** Putting on an item whose effects parse and name only integer stats other than health
      succeeds and moves every stat by the item's amounts. */
  lemma PutOnAdds(d: CharacterData, id: string, item: Item, slot: Slot, es: Effects)
    requires id in d.inventory && ParseEffectString(item.effect) == Ok(es)
    requires forall i :: 0 <= i < |es| ==> !IsNonNumericKey(es[i].0) && es[i].0 != "health"
    ensures var s := PutOn(d, id, item, slot);
      s.result == Ok(true) && SlotValue(s.after, slot) == Some(id)
      && s.after.inventory == RemoveFirst(d.inventory, id)
      && forall k :: StatValue(s.after, k) == StatValue(d, k) + SumFor(es, k)
  {
    var d1 := SetSlot(d, slot, Some(id));
    SameStatValues(d1, d);
    var a := ApplyEffectsTo(d1, es, false);
    ApplyEffectsAdds(d1, es, false);
    ApplyEffectsOutcome(d1, es, false);
    var s := PutOn(d, id, item, slot);
    assert s.after == a.after.(inventory := RemoveFirst(d.inventory, id));
    SameStatValues(s.after, a.after);
  }

  /** Taking off an item whose effects parse and name only integer stats other than health,
      with room in the inventory, succeeds, gives the item back and undoes its amounts. */
  lemma TakeOffSubtracts(d: CharacterData, id: string, effect: string, es: Effects)
    requires |d.inventory| < MaxInventorySize && ParseEffectString(effect) == Ok(es)
    requires forall i :: 0 <= i < |es| ==> !IsNonNumericKey(es[i].0) && es[i].0 != "health"
    ensures var s := TakeOff(d, id, effect);
      s.result == Ok(()) && s.after.inventory == d.inventory + [id]
      && s.after.equippedWeapon == d.equippedWeapon && s.after.equippedArmor == d.equippedArmor
      && forall k :: StatValue(s.after, k) == StatValue(d, k) - SumFor(es, k)
  {
    var a := ApplyEffectsTo(d, es, true);
    ApplyEffectsAdds(d, es, true);
    ApplyEffectsOutcome(d, es, true);
    var s := TakeOff(d, id, effect);
    assert s.after == a.after.(inventory := d.inventory + [id]);
    SameStatValues(s.after, a.after);
  }

  /** Equipping fails in the source's order of checks, and a success moves the items: the new
      one leaves the inventory and sits in the slot, the one it replaces comes back. */
  lemma EquipMovesItems(d: CharacterData, id: string, item: Item, known: map<string, Item>, slot: Slot)
    ensures var s := EquipSpec(d, id, item, known, slot);
      (!HasItem(d, id) ==> s == Step(d, Err(ItemNotFound)))
      && (HasItem(d, id) && item.itemType != SlotType(slot) ==> s == Step(d, Err(InvalidItemType)))
      && (s.result.Ok? ==>
            SlotValue(s.after, slot) == Some(id)
            && multiset(s.after.inventory)
               == multiset(d.inventory)
                  + (if Occupied(SlotValue(d, slot)) then multiset{SlotValue(d, slot).value} else multiset{})
                  - multiset{id})
  {
    var s := EquipSpec(d, id, item, known, slot);
    if s.result.Ok? {
      var current := SlotValue(d, slot);
      var off := if Occupied(current) then TakeOff(d, current.value, KnownEffect(known, current.value))
                 else Step(d, Ok(()));
      assert s == PutOn(off.after, id, item, slot);
      if Occupied(current) {
        TakeOffShape(d, current.value, KnownEffect(known, current.value));
        assert multiset(off.after.inventory) == multiset(d.inventory) + multiset{current.value};
      }
      PutOnShape(off.after, id, item, slot);
      RemoveFirstMultiset(off.after.inventory, id);
    }
  }

  /** Unequipping: an empty slot is left alone; otherwise the slot is cleared and its item is
      back in the inventory. */
  lemma UnequipReturnsItem(d: CharacterData, item: Item, slot: Slot)
    ensures var s := UnequipSpec(d, item, slot);
      (!Occupied(SlotValue(d, slot)) ==> s == Step(d, Ok(None)))
      && (s.result.Ok? && Occupied(SlotValue(d, slot)) ==>
            s.result.value == Some(SlotValue(d, slot).value)
            && SlotValue(s.after, slot) == None
            && s.after.inventory == d.inventory + [SlotValue(d, slot).value])
  {
    if Occupied(SlotValue(d, slot)) {
      TakeOffShape(d, SlotValue(d, slot).value, item.effect);
    }
  }

  /** Equipping an item into an empty slot and unequipping it again restores every stat, the
      inventory (as a multiset) and the empty slot. */
  lemma EquipThenUnequip(d: CharacterData, id: string, item: Item, known: map<string, Item>,
                         slot: Slot, es: Effects)
    requires HasItem(d, id) && id != "" && item.itemType == SlotType(slot)
    requires !Occupied(SlotValue(d, slot)) && |d.inventory| <= MaxInventorySize
    requires ParseEffectString(item.effect) == Ok(es)
    requires forall i :: 0 <= i < |es| ==> !IsNonNumericKey(es[i].0) && es[i].0 != "health"
    ensures var on := EquipSpec(d, id, item, known, slot);
      var off := UnequipSpec(on.after, item, slot);
      on.result == Ok(true) && off.result == Ok(Some(id))
      && SlotValue(off.after, slot) == None
      && multiset(off.after.inventory) == multiset(d.inventory)
      && forall k :: StatValue(off.after, k) == StatValue(d, k)
  {
    var on := EquipSpec(d, id, item, known, slot);
    EquipIntoEmptySlot(d, id, item, known, slot, es);
    var held := RemoveFirst(d.inventory, id);
    assert |on.after.inventory| == |held| < MaxInventorySize;
    UnequipSubtracts(on.after, id, item, slot, es);
    var off := UnequipSpec(on.after, item, slot);
    RemoveFirstMultiset(d.inventory, id);
    assert multiset(off.after.inventory) == multiset(held) + multiset{id};
    forall k ensures StatValue(off.after, k) == StatValue(d, k) {
      assert StatValue(on.after, k) == StatValue(d, k) + SumFor(es, k);
    }
  }

  /** Equipping into an empty slot is putting the item on: it succeeds, fills the slot, takes
      one copy out of the inventory and adds the item's amounts. */
  lemma EquipIntoEmptySlot(d: CharacterData, id: string, item: Item, known: map<string, Item>,
                           slot: Slot, es: Effects)
    requires HasItem(d, id) && item.itemType == SlotType(slot) && !Occupied(SlotValue(d, slot))
    requires ParseEffectString(item.effect) == Ok(es)
    requires forall i :: 0 <= i < |es| ==> !IsNonNumericKey(es[i].0) && es[i].0 != "health"
    ensures var on := EquipSpec(d, id, item, known, slot);
      on.result == Ok(true) && SlotValue(on.after, slot) == Some(id)
      && on.after.inventory == RemoveFirst(d.inventory, id)
      && forall k :: StatValue(on.after, k) == StatValue(d, k) + SumFor(es, k)
  {
    assert EquipSpec(d, id, item, known, slot) == PutOn(d, id, item, slot);
    PutOnAdds(d, id, item, slot, es);
  }

  /** Unequipping a filled slot, with room in the inventory, succeeds: it returns the item,
      empties the slot, puts the item back at the end of the inventory and takes its amounts
      off again. */
  lemma UnequipSubtracts(d: CharacterData, id: string, item: Item, slot: Slot, es: Effects)
    requires SlotValue(d, slot) == Some(id) && id != "" && |d.inventory| < MaxInventorySize
    requires ParseEffectString(item.effect) == Ok(es)
    requires forall i :: 0 <= i < |es| ==> !IsNonNumericKey(es[i].0) && es[i].0 != "health"
    ensures var off := UnequipSpec(d, item, slot);
      off.result == Ok(Some(id)) && SlotValue(off.after, slot) == None
      && off.after.inventory == d.inventory + [id]
      && forall k :: StatValue(off.after, k) == StatValue(d, k) - SumFor(es, k)
  {
    var back := TakeOff(d, id, item.effect);
    TakeOffSubtracts(d, id, item.effect, es);
    var off := UnequipSpec(d, item, slot);
    assert off == Step(SetSlot(back.after, slot, None), Ok(Some(id)));
    SameStatValues(off.after, back.after);
  }

  /** Sets a slot on the live record. */
  method SetSlotOf(c: Character, slot: Slot, v: Option<string>)
    modifies c
    ensures c.Snapshot() == SetSlot(old(c.Snapshot()), slot, v)
  {
    match slot {
      case WeaponSlot => c.equippedWeapon := v;
      case ArmorSlot => c.equippedArmor := v;
    }
  }

  method TakeOffItem(c: Character, id: string, effect: string) returns (r: Result<()>)
    modifies c
    ensures c.Snapshot() == TakeOff(old(c.Snapshot()), id, effect).after
    ensures r == TakeOff(old(c.Snapshot()), id, effect).result
  {
    var parsed := ParseEffects(effect);
    if parsed.Err? {
      return Err(parsed.error);
    }
    r := ApplyEffectList(c, parsed.value, true);
    if r.Err? {
      return;
    }
    var added := AddItem(c, id);
    if added.Err? {
      return Err(added.error);
    }
    return Ok(());
  }

  method PutOnItem(c: Character, id: string, item: Item, slot: Slot) returns (r: Result<bool>)
    modifies c
    ensures c.Snapshot() == PutOn(old(c.Snapshot()), id, item, slot).after
    ensures r == PutOn(old(c.Snapshot()), id, item, slot).result
  {
    SetSlotOf(c, slot, Some(id));
    var parsed := ParseEffects(item.effect);
    if parsed.Err? {
      return Err(parsed.error);
    }
    var applied := ApplyEffectList(c, parsed.value, false);
    if applied.Err? {
      return Err(applied.error);
    }
    r := RemoveItem(c, id);
  }

  method Equip(c: Character, id: string, item: Item, known: map<string, Item>, slot: Slot)
    returns (r: Result<bool>)
    modifies c
    ensures c.Snapshot() == EquipSpec(old(c.Snapshot()), id, item, known, slot).after
    ensures r == EquipSpec(old(c.Snapshot()), id, item, known, slot).result
  {
    if id !in c.inventory {
      return Err(ItemNotFound);
    }
    if item.itemType != SlotType(slot) {
      return Err(InvalidItemType);
    }
    var current := SlotValue(c.Snapshot(), slot);
    if Occupied(current) {
      var off := TakeOffItem(c, current.value, KnownEffect(known, current.value));
      if off.Err? {
        return Err(off.error);
      }
    }
    r := PutOnItem(c, id, item, slot);
  }

  method EquipWeapon(c: Character, id: string, item: Item, known: map<string, Item>)
    returns (r: Result<bool>)
    modifies c
    ensures c.Snapshot() == EquipSpec(old(c.Snapshot()), id, item, known, WeaponSlot).after
    ensures r == EquipSpec(old(c.Snapshot()), id, item, known, WeaponSlot).result
  {
    r := Equip(c, id, item, known, WeaponSlot);
  }

  method EquipArmor(c: Character, id: string, item: Item, known: map<string, Item>)
    returns (r: Result<bool>)
    modifies c
    ensures c.Snapshot() == EquipSpec(old(c.Snapshot()), id, item, known, ArmorSlot).after
    ensures r == EquipSpec(old(c.Snapshot()), id, item, known, ArmorSlot).result
  {
    r := Equip(c, id, item, known, ArmorSlot);
  }

  method UnequipItem(c: Character, item: Item, slot: Slot) returns (r: Result<Option<string>>)
    modifies c
    ensures c.Snapshot() == UnequipSpec(old(c.Snapshot()), item, slot).after
    ensures r == UnequipSpec(old(c.Snapshot()), item, slot).result
  {
    var current := SlotValue(c.Snapshot(), slot);
    if !Occupied(current) {
      return Ok(None);
    }
    var off := TakeOffItem(c, current.value, item.effect);
    if off.Err? {
      return Err(off.error);
    }
    SetSlotOf(c, slot, None);
    return Ok(Some(current.value));
  }

  // ---------------------------------------------------------------------------
  // Shop
  // ---------------------------------------------------------------------------

  /** `purchase_item`: InsufficientResources is checked before InventoryFull; a purchase
      pays the cost and appends the id. */
  function PurchaseSpec(d: CharacterData, id: string, item: Item): Step<bool> {
    if d.gold < item.cost then Step(d, Err(InsufficientResources))
    else if |d.inventory| >= MaxInventorySize then Step(d, Err(InventoryFull))
    else Step(d.(gold := d.gold - item.cost, inventory := d.inventory + [id]), Ok(true))
  }

  /** `sell_item`: ItemNotFound, otherwise one copy goes and half the cost (rounded down) is
      paid and returned. */
  function SaleSpec(d: CharacterData, id: string, item: Item): Step<int> {
    if id !in d.inventory then Step(d, Err(ItemNotFound))
    else
      var price := item.cost / 2;
      Step(d.(inventory := RemoveFirst(d.inventory, id), gold := d.gold + price), Ok(price))
  }

  /** A purchase succeeds exactly when the gold covers the cost and there is room; lack of
      gold is reported even when the inventory is also full; a refused purchase changes
      nothing; gold that was not negative stays so. */
  lemma PurchaseOutcome(d: CharacterData, id: string, item: Item)
    ensures var s := PurchaseSpec(d, id, item);
      (s.result.Ok? <==> d.gold >= item.cost && SpaceRemaining(d) > 0)
      && (d.gold < item.cost ==> s.result == Err(InsufficientResources))
      && (d.gold >= item.cost && SpaceRemaining(d) <= 0 ==> s.result == Err(InventoryFull))
      && (s.result.Err? ==> s.after == d)
      && (s.result.Ok? ==>
            s.after.gold == d.gold - item.cost
            && multiset(s.after.inventory) == multiset(d.inventory) + multiset{id}
            && s.after == d.(gold := s.after.gold, inventory := s.after.inventory))
      && (d.gold >= 0 ==> s.after.gold >= 0)
  {
  }

  /** A sale succeeds exactly when the id is held, pays half the cost rounded down, and takes
      out one copy. */
  lemma SaleOutcome(d: CharacterData, id: string, item: Item)
    ensures var s := SaleSpec(d, id, item);
      (s.result.Ok? <==> HasItem(d, id))
      && (s.result.Err? ==> s == Step(d, Err(ItemNotFound)))
      && (s.result.Ok? ==>
            2 * s.result.value <= item.cost < 2 * s.result.value + 2
            && s.after.gold == d.gold + s.result.value
            && multiset(s.after.inventory) == multiset(d.inventory) - multiset{id}
            && s.after == d.(gold := s.after.gold, inventory := s.after.inventory))
  {
    if id in d.inventory {
      RemoveFirstMultiset(d.inventory, id);
    }
  }

  /** Buying an item not yet held and selling it straight back restores the inventory and
      costs the difference between the price and the resale value. */
  lemma BuyThenSell(d: CharacterData, id: string, item: Item)
    requires !HasItem(d, id) && SpaceRemaining(d) > 0 && d.gold >= item.cost
    ensures var bought := PurchaseSpec(d, id, item);
      var sold := SaleSpec(bought.after, id, item);
      bought.result == Ok(true) && sold.result == Ok(item.cost / 2)
      && sold.after == d.(gold := d.gold - item.cost + item.cost / 2)
  {
    RemoveFirstAppended(d.inventory, id);
  }

  method PurchaseItem(c: Character, id: string, item: Item) returns (r: Result<bool>)
    modifies c
    ensures c.Snapshot() == PurchaseSpec(old(c.Snapshot()), id, item).after
    ensures r == PurchaseSpec(old(c.Snapshot()), id, item).result
  {
    if c.gold < item.cost {
      return Err(InsufficientResources);
    }
    if |c.inventory| >= MaxInventorySize {
      return Err(InventoryFull);
    }
    c.gold := c.gold - item.cost;
    c.inventory := c.inventory + [id];
    return Ok(true);
  }

  method SellItem(c: Character, id: string, item: Item) returns (r: Result<int>)
    modifies c
    ensures c.Snapshot() == SaleSpec(old(c.Snapshot()), id, item).after
    ensures r == SaleSpec(old(c.Snapshot()), id, item).result
  {
    if id !in c.inventory {
      return Err(ItemNotFound);
    }
    var price := item.cost / 2;
    c.inventory := RemoveFirst(c.inventory, id);
    c.gold := c.gold + price;
    return Ok(price);
  }
}
