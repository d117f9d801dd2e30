/**
 * `ItemCategorizer` (categorizer.py): item metadata to a TSM group path, by
 * ordered rules over the mapping tables, plus batch partitioning, the list of
 * known groups and custom-rule insertion.
 */
module Categorizer {
  import opened Wrappers
  import opened Strings
  import opened Dict
  import opened StringOrder

  /** An armor subclass maps either straight to a group or to a table keyed by slot. */
  datatype ArmorRule = Group(path: string) | BySlot(slots: Dict<string, string>)

  /** The mapping tables of one categorizer, one field per key of `DEFAULT_MAPPINGS` plus `custom_mappings`. */
  datatype Mappings = Mappings(
    weapon: Dict<string, string>,
    armor: Dict<string, ArmorRule>,
    consumable: Dict<string, string>,
    tradeGoods: Dict<string, string>,
    recipe: Dict<string, string>,
    gem: Dict<string, string>,
    container: Dict<string, string>,
    custom: Dict<string, string>)

  const Uncategorized: string := "Other"
  const GemsGroup: string := "Tradeskills`Jewelcrafting`Gems"
  const BagsGroup: string := "Tradeskills`Tailoring`Bags"

  /** `DEFAULT_MAPPINGS`; there are no custom mappings until one is added. */
  const DefaultMappings: Mappings := Mappings(
    [ ("Sword (1H)", "Transmog`Swords`One Hand"), ("Sword (2H)", "Transmog`Swords`Two Hand"),
      ("Axe (1H)", "Transmog`Axes`One Hand"), ("Axe (2H)", "Transmog`Axes`Two Hand"),
      ("Mace (1H)", "Transmog`Maces`One Hand"), ("Mace (2H)", "Transmog`Maces`Two Hand"),
      ("Dagger", "Transmog`Daggers"), ("Staff", "Transmog`Staves"), ("Polearm", "Transmog`Polearms"),
      ("Bow", "Transmog`Bows"), ("Gun", "Transmog`Guns"), ("Crossbow", "Transmog`Crossbow"),
      ("Wand", "Transmog`Wands"), ("Thrown", "Transmog`Throwing"), ("Fist Weapon", "Transmog`Fist Weapons"),
      ("Fishing Pole", "Tradeskills`Fishing`Rods") ],
    [ ("Cloth", BySlot([ ("Head", "Transmog`Cloth`Helm"), ("Shoulder", "Transmog`Cloth`Shoulders"),
          ("Chest", "Transmog`Cloth`Chest"), ("Robe", "Transmog`Cloth`Chest"), ("Waist", "Transmog`Cloth`Waist"),
          ("Legs", "Transmog`Cloth`Legs"), ("Feet", "Transmog`Cloth`Feet"), ("Wrists", "Transmog`Cloth`Wrists"),
          ("Hands", "Transmog`Cloth`Hands"), ("Back", "Transmog`Cloth`Back") ])),
      ("Leather", BySlot([ ("Head", "Transmog`Leather`Helm"), ("Shoulder", "Transmog`Leather`Shoulders"),
          ("Chest", "Transmog`Leather`Chest"), ("Waist", "Transmog`Leather`Waist"), ("Legs", "Transmog`Leather`Legs"),
          ("Feet", "Transmog`Leather`Feet"), ("Wrists", "Transmog`Leather`Wrists"), ("Hands", "Transmog`Leather`Hands") ])),
      ("Mail", BySlot([ ("Head", "Transmog`Mail`Helm"), ("Shoulder", "Transmog`Mail`Shoulders"),
          ("Chest", "Transmog`Mail`Chest"), ("Waist", "Transmog`Mail`Waist"), ("Legs", "Transmog`Mail`Legs"),
          ("Feet", "Transmog`Mail`Feet"), ("Wrists", "Transmog`Mail`Wrists"), ("Hands", "Transmog`Mail`Hands") ])),
      ("Plate", BySlot([ ("Head", "Transmog`Plate`Helm"), ("Shoulder", "Transmog`Plate`Shoulders"),
          ("Chest", "Transmog`Plate`Chest"), ("Waist", "Transmog`Plate`Waist"), ("Legs", "Transmog`Plate`Legs"),
          ("Feet", "Transmog`Plate`Feet"), ("Wrists", "Transmog`Plate`Wrists"), ("Hands", "Transmog`Plate`Hands") ])),
      ("Shield", Group("Transmog`Offhand")),
      ("Miscellaneous", BySlot([ ("Off Hand", "Transmog`Offhand"), ("Held In Off-hand", "Transmog`Offhand"),
          ("Tabard", "Transmog`Tabards"), ("Shirt", "Transmog`Cloth`Shirts") ])) ],
    [ ("Potion", "Tradeskills`Alchemy`Potions"), ("Elixir", "Tradeskills`Alchemy`Elixirs"),
      ("Flask", "Tradeskills`Alchemy`Flasks"), ("Food", "Tradeskills`Cooking`Eadibles"),
      ("Drink", "Tradeskills`Cooking`Drinks"), ("Bandage", "Tradeskills`FirstAid`Bandages"), ("Scroll", "Scrolls") ],
    [ ("Metal & Stone", "Tradeskills`Materials`Mining"), ("Herb", "Tradeskills`Materials`Herbalism"),
      ("Leather", "Tradeskills`Materials`Skinning"), ("Cloth", "Tradeskills`Tailoring`Cloth"),
      ("Meat", "Tradeskills`Cooking`Meats"), ("Elemental", "Tradeskills`Materials`Elemental"),
      ("Enchanting", "Tradeskills`Enchanting`Reagents"), ("Jewelcrafting", "Tradeskills`Jewelcrafting`Reagents"),
      ("Engineering", "Tradeskills`Engineering`Reagents") ],
    [ ("Alchemy", "Patterns`Alchemy"), ("Blacksmithing", "Patterns`Blacksmithing"), ("Cooking", "Patterns`Cooking"),
      ("Enchanting", "Patterns`Enchanting"), ("Engineering", "Patterns`Engineering"), ("First Aid", "Patterns`First Aid"),
      ("Jewelcrafting", "Patterns`Jewelcrafting"), ("Leatherworking", "Patterns`Leatherworking"),
      ("Tailoring", "Patterns`Tailoring") ],
    [ ("Red", GemsGroup), ("Blue", GemsGroup), ("Yellow", GemsGroup), ("Purple", GemsGroup), ("Green", GemsGroup),
      ("Orange", GemsGroup), ("Meta", GemsGroup), ("Simple", GemsGroup), ("Prismatic", GemsGroup) ],
    [ ("Bag", BagsGroup), ("Soul Bag", BagsGroup), ("Herb Bag", BagsGroup), ("Enchanting Bag", BagsGroup),
      ("Engineering Bag", BagsGroup), ("Gem Bag", BagsGroup), ("Mining Bag", BagsGroup),
      ("Leatherworking Bag", BagsGroup), ("Inscription Bag", BagsGroup), ("Tackle Box", BagsGroup) ],
    [])

  // ---------------------------------------------------------------------------
  // categorize
  // ---------------------------------------------------------------------------

  /** The slot key, lower-cased, occurs in the slot, lower-cased (`slot_key.lower() in slot.lower()`). */
  predicate SlotKeyFits(slotKey: string, slot: string)
  {
    Contains(Lower(slot), Lower(slotKey))
  }

  /** The index of the first slot key (in table order) that fits the slot, or -1. */
  function FirstFittingSlot(slots: Dict<string, string>, slot: string): (j: int)
    ensures -1 <= j < |slots|
    ensures j == -1 ==> forall i :: 0 <= i < |slots| ==> !SlotKeyFits(slots[i].0, slot)
    ensures j >= 0 ==> SlotKeyFits(slots[j].0, slot) && forall i :: 0 <= i < j ==> !SlotKeyFits(slots[i].0, slot)
  {
    if |slots| == 0 then -1
    else if SlotKeyFits(slots[0].0, slot) then 0
    else
      var j := FirstFittingSlot(slots[1..], slot);
      if j == -1 then -1 else j + 1
  }

  /** The group an armor rule gives a slot: an exact slot key first, then the first fitting key. */
  function ArmorGroup(rule: ArmorRule, slot: string): (r: Option<string>)
    ensures rule.Group? ==> r == Some(rule.path)
    ensures rule.BySlot? && slot in Keys(rule.slots) ==> r == Get(rule.slots, slot)
    ensures rule.BySlot? && slot !in Keys(rule.slots) ==>
      (r.None? <==> forall i :: 0 <= i < |rule.slots| ==> !SlotKeyFits(rule.slots[i].0, slot))
    ensures rule.BySlot? && slot !in Keys(rule.slots) && r.Some? ==>
      exists j :: 0 <= j < |rule.slots| && r.value == rule.slots[j].1 && SlotKeyFits(rule.slots[j].0, slot)
        && forall i :: 0 <= i < j ==> !SlotKeyFits(rule.slots[i].0, slot)
  {
    match rule
    case Group(path) => Some(path)
    case BySlot(slots) =>
      if slot in Keys(slots) then Get(slots, slot)
      else
        var j := FirstFittingSlot(slots, slot);
        if j == -1 then None else Some(slots[j].1)
  }

  /** The item's name, lower-cased, contains the word. */
  predicate Mentions(name: string, word: string)
  {
    Contains(Lower(name), word)
  }

  /** The group a consumable gets: its subclass, or else a word in its name, tried in a fixed order. */
  function ConsumableGroup(consumables: Dict<string, string>, subclass: string, name: string): (r: Option<string>)
    ensures subclass in Keys(consumables) ==> r == Get(consumables, subclass)
    ensures subclass !in Keys(consumables) && Mentions(name, "potion") ==>
      r == Some(Get(consumables, "Potion").GetOr(Uncategorized))
    ensures subclass !in Keys(consumables) && !Mentions(name, "potion") && Mentions(name, "elixir") ==>
      r == Some(Get(consumables, "Elixir").GetOr(Uncategorized))
    ensures (subclass !in Keys(consumables) && !(Mentions(name, "potion") || Mentions(name, "elixir"))
      && Mentions(name, "flask")) ==> r == Some(Get(consumables, "Flask").GetOr(Uncategorized))
    ensures (subclass !in Keys(consumables) && !(Mentions(name, "potion") || Mentions(name, "elixir") || Mentions(name, "flask"))
      && Mentions(name, "scroll")) ==> r == Some(Get(consumables, "Scroll").GetOr(Uncategorized))
    ensures r.None? <==> (subclass !in Keys(consumables) && !(Mentions(name, "potion") || Mentions(name, "elixir")
      || Mentions(name, "flask") || Mentions(name, "scroll")))
  {
    if subclass in Keys(consumables) then Get(consumables, subclass)
    else
      var lowered := Lower(name);
      if Contains(lowered, "potion") then Some(Get(consumables, "Potion").GetOr(Uncategorized))
      else if Contains(lowered, "elixir") then Some(Get(consumables, "Elixir").GetOr(Uncategorized))
      else if Contains(lowered, "flask") then Some(Get(consumables, "Flask").GetOr(Uncategorized))
      else if Contains(lowered, "scroll") then Some(Get(consumables, "Scroll").GetOr(Uncategorized))
      else None
  }

  /** The item classes `categorize` has a rule for. */
  const HandledClasses: set<string> :=
    {"Weapon", "Armor", "Consumable", "Trade Goods", "Recipe", "Gem", "Container", "Projectile", "Quest", "Junk"}

  /**
   * `categorize`: total and deterministic. A class whose rule does not apply
   * falls through to "Other"; Gem and Container always have a group.
   */
  function Categorize(m: Mappings, itemClass: string, subclass: string, slot: string, name: string): (r: string)
    ensures itemClass !in HandledClasses ==> r == Uncategorized
    ensures itemClass == "Weapon" ==> r == Get(m.weapon, subclass).GetOr(Uncategorized)
    ensures itemClass == "Armor" ==>
      r == (if subclass in Keys(m.armor) then ArmorGroup(Get(m.armor, subclass).value, slot) else None).GetOr(Uncategorized)
    ensures itemClass == "Consumable" ==> r == ConsumableGroup(m.consumable, subclass, name).GetOr(Uncategorized)
    ensures itemClass == "Trade Goods" ==> r == Get(m.tradeGoods, subclass).GetOr(Uncategorized)
    ensures itemClass == "Recipe" ==> r == Get(m.recipe, subclass).GetOr(Uncategorized)
    ensures itemClass == "Gem" ==> r == Get(m.gem, subclass).GetOr(GemsGroup)
    ensures itemClass == "Container" ==> r == Get(m.container, subclass).GetOr(BagsGroup)
    ensures itemClass == "Projectile" ==> r == "Ammo"
    ensures itemClass == "Quest" ==> r == "Quest"
    ensures itemClass == "Junk" ==> r == "Trash"
  {
    if itemClass == "Weapon" && subclass in Keys(m.weapon) then Get(m.weapon, subclass).value
    else if itemClass == "Armor" && subclass in Keys(m.armor) && ArmorGroup(Get(m.armor, subclass).value, slot).Some? then
      ArmorGroup(Get(m.armor, subclass).value, slot).value
    else if itemClass == "Consumable" && ConsumableGroup(m.consumable, subclass, name).Some? then
      ConsumableGroup(m.consumable, subclass, name).value
    else if itemClass == "Trade Goods" && subclass in Keys(m.tradeGoods) then Get(m.tradeGoods, subclass).value
    else if itemClass == "Recipe" && subclass in Keys(m.recipe) then Get(m.recipe, subclass).value
    else if itemClass == "Gem" then Get(m.gem, subclass).GetOr(GemsGroup)
    else if itemClass == "Container" then Get(m.container, subclass).GetOr(BagsGroup)
    else if itemClass == "Projectile" then "Ammo"
    else if itemClass == "Quest" then "Quest"
    else if itemClass == "Junk" then "Trash"
    else Uncategorized
  }

  // ---------------------------------------------------------------------------
  // get_available_groups
  // ---------------------------------------------------------------------------

  function Values(d: Dict<string, string>): set<string>
  {
    set i | 0 <= i < |d| :: d[i].1
  }

  function ArmorLeaves(armor: Dict<string, ArmorRule>): set<string>
  {
    (set i | 0 <= i < |armor| && armor[i].1.Group? :: armor[i].1.path)
    + (set i, j | 0 <= i < |armor| && armor[i].1.BySlot? && 0 <= j < |armor[i].1.slots| :: armor[i].1.slots[j].1)
  }

  /** Every string reachable in the mapping tables (`extract_groups` over all mappings). */
  function Leaves(m: Mappings): set<string>
  {
    Values(m.weapon) + ArmorLeaves(m.armor) + Values(m.consumable) + Values(m.tradeGoods) + Values(m.recipe)
    + Values(m.gem) + Values(m.container) + Values(m.custom)
  }

  /** `get_available_groups`: every string leaf of the mappings, once, in sorted order. */
  method GetAvailableGroups(m: Mappings) returns (r: seq<string>)
    ensures StrictlySorted(r)
    ensures forall g :: g in r <==> g in Leaves(m)
  {
    r := SortStrings(Leaves(m));
  }

  /** The groups `categorize` can return without reading them from a table. */
  const BuiltInGroups: set<string> := {Uncategorized, GemsGroup, BagsGroup, "Ammo", "Quest", "Trash"}

  lemma GetInValues(d: Dict<string, string>, k: string)
    requires k in Keys(d)
    ensures Get(d, k).value in Values(d)
  {
  }

  /** Whatever `categorize` returns is a leaf of the mappings or one of its built-in groups. */
  lemma CategorizeYieldsKnownGroup(m: Mappings, itemClass: string, subclass: string, slot: string, name: string)
    ensures Categorize(m, itemClass, subclass, slot, name) in Leaves(m) + BuiltInGroups
  {
    var r := Categorize(m, itemClass, subclass, slot, name);
    if itemClass == "Armor" && subclass in Keys(m.armor) {
      var rule := Get(m.armor, subclass).value;
      var i :| 0 <= i < |m.armor| && m.armor[i] == (subclass, rule);
      match rule
      case Group(path) =>
      case BySlot(slots) =>
        if ArmorGroup(rule, slot).Some? {
          var j :| 0 <= j < |slots| && ArmorGroup(rule, slot).value == slots[j].1;
          assert m.armor[i].1.slots[j].1 in ArmorLeaves(m.armor);
        }
    }
  }

  // ---------------------------------------------------------------------------
  // categorize_batch
  // ---------------------------------------------------------------------------

  /** One element of the list `categorize_batch` takes; a missing key reads as the empty string. */
  datatype ItemInfo = ItemInfo(id: int, itemClass: Option<string>, subclass: Option<string>, slot: Option<string>, name: Option<string>)

  function GroupOf(m: Mappings, item: ItemInfo): string
  {
    Categorize(m, item.itemClass.GetOr(""), item.subclass.GetOr(""), item.slot.GetOr(""), item.name.GetOr(""))
  }

  function GroupsOf(m: Mappings, items: seq<ItemInfo>): set<string>
  {
    set i | 0 <= i < |items| :: GroupOf(m, items[i])
  }

  /** The ids of the items that fall into `g`, in list order: the filter the batch result must agree with. */
  function IdsIn(m: Mappings, items: seq<ItemInfo>, g: string): seq<int>
  {
    if |items| == 0 then []
    else (if GroupOf(m, items[0]) == g then [items[0].id] else []) + IdsIn(m, items[1..], g)
  }

  lemma {:induction false} IdsInSnoc(m: Mappings, items: seq<ItemInfo>, g: string)
    requires |items| > 0
    ensures IdsIn(m, items, g) == IdsIn(m, items[..|items| - 1], g)
      + (if GroupOf(m, items[|items| - 1]) == g then [items[|items| - 1].id] else [])
  {
    if |items| > 1 {
      IdsInSnoc(m, items[1..], g);
      assert items[1..][..|items[1..]| - 1] == items[..|items| - 1][1..];
    }
  }

  lemma {:induction false} IdsInAbsent(m: Mappings, items: seq<ItemInfo>, g: string)
    requires g !in GroupsOf(m, items)
    ensures IdsIn(m, items, g) == []
  {
    if |items| > 0 {
      assert GroupOf(m, items[0]) != g;
      assert GroupsOf(m, items[1..]) <= GroupsOf(m, items) by {
        forall x | x in GroupsOf(m, items[1..]) ensures x in GroupsOf(m, items) {
          var i :| 0 <= i < |items[1..]| && GroupOf(m, items[1..][i]) == x;
          assert items[1..][i] == items[i + 1];
        }
      }
      IdsInAbsent(m, items[1..], g);
    }
  }

  lemma GroupsOfSnoc(m: Mappings, items: seq<ItemInfo>)
    requires |items| > 0
    ensures GroupsOf(m, items) == GroupsOf(m, items[..|items| - 1]) + {GroupOf(m, items[|items| - 1])}
  {
    var init := items[..|items| - 1];
    assert forall i :: 0 <= i < |init| ==> init[i] == items[i];
  }

  /** The total number of ids over all groups. */
  function SumLengths(d: Dict<string, seq<int>>): nat
  {
    if |d| == 0 then 0 else |d[0].1| + SumLengths(d[1..])
  }

  lemma {:induction false} SumLengthsPut(d: Dict<string, seq<int>>, k: string, v: seq<int>)
    requires UniqueKeys(d)
    ensures SumLengths(Put(d, k, v)) + |Get(d, k).GetOr([])| == SumLengths(d) + |v|
  {
    if |d| > 0 {
      if d[0].0 == k {
        assert ([(k, v)] + d[1..])[1..] == d[1..];
      } else {
        SumLengthsPut(d[1..], k, v);
        assert ([d[0]] + Put(d[1..], k, v))[1..] == Put(d[1..], k, v);
      }
    }
  }

  /**
   * `categorize_batch`: each item's id is appended to the list of its group,
   * a group's list being created the first time the group comes up.
   */
  function CategorizeBatch(m: Mappings, items: seq<ItemInfo>): (r: Dict<string, seq<int>>)
    ensures UniqueKeys(r)
    ensures Keys(r) == GroupsOf(m, items)
    ensures SumLengths(r) == |items|
  {
    if |items| == 0 then []
    else
      var prev := CategorizeBatch(m, items[..|items| - 1]);
      var item := items[|items| - 1];
      var g := GroupOf(m, item);
      var ids := Get(prev, g).GetOr([]) + [item.id];
      PutUnique(prev, g, ids);
      KeysPut(prev, g, ids);
      GroupsOfSnoc(m, items);
      SumLengthsPut(prev, g, ids);
      Put(prev, g, ids)
  }

  /** Every group of the batch lists exactly the ids of the items that categorize into it, in list order. */
  lemma {:induction false} BatchIsFilter(m: Mappings, items: seq<ItemInfo>)
    ensures forall i :: 0 <= i < |CategorizeBatch(m, items)| ==>
      CategorizeBatch(m, items)[i].1 == IdsIn(m, items, CategorizeBatch(m, items)[i].0)
    decreases |items|
  {
    if |items| > 0 {
      var init := items[..|items| - 1];
      BatchIsFilter(m, init);
      var prev := CategorizeBatch(m, init);
      var item := items[|items| - 1];
      var g := GroupOf(m, item);
      var ids := Get(prev, g).GetOr([]) + [item.id];
      var r := CategorizeBatch(m, items);
      assert r == Put(prev, g, ids);
      PutUnique(prev, g, ids);
      forall i | 0 <= i < |r| ensures r[i].1 == IdsIn(m, items, r[i].0) {
        var key := r[i].0;
        IdsInSnoc(m, items, key);
        GetAt(r, i);
        GetPut(prev, g, ids, key);
        if g in Keys(prev) {
          assert prev[i].0 == key;
          GetAt(prev, i);
        } else if i < |prev| {
          assert r[i] == prev[i];
        } else {
          assert key == g;
          IdsInAbsent(m, init, g);
        }
      }
    }
  }

  // ---------------------------------------------------------------------------
  // add_custom_mapping
  // ---------------------------------------------------------------------------

  /** The key a Weapon or Consumable rule is stored under: the subclass, or the class when no subclass is given. */
  function RuleKey(itemClass: string, subclass: string): string
  {
    if subclass == "" then itemClass else subclass
  }

  /**
   * `add_custom_mapping`. An absent or empty subclass or slot is the empty
   * string. Writing a slot under an armor subclass that maps straight to a
   * group fails, as the item assignment on a `str` does.
   */
  function AddCustomMapping(m: Mappings, itemClass: string, groupPath: string, subclass: string, slot: string): (r: Result<Mappings, string>)
    ensures r.Failure? <==> (itemClass == "Armor" && subclass != "" && slot != ""
      && subclass in Keys(m.armor) && Get(m.armor, subclass).value.Group?)
    ensures r.Success? ==> (r.value.tradeGoods == m.tradeGoods && r.value.recipe == m.recipe
      && r.value.gem == m.gem && r.value.container == m.container)
    ensures r.Success? && itemClass != "Weapon" ==> r.value.weapon == m.weapon
    ensures r.Success? && itemClass != "Armor" ==> r.value.armor == m.armor
    ensures r.Success? && itemClass != "Consumable" ==> r.value.consumable == m.consumable
    ensures r.Success? && itemClass in {"Weapon", "Armor", "Consumable"} ==> r.value.custom == m.custom
    ensures itemClass !in {"Weapon", "Armor", "Consumable"} ==>
      r == Success(m.(custom := Put(m.custom, itemClass + ":" + subclass, groupPath)))
  {
    if itemClass == "Weapon" then
      Success(m.(weapon := Put(m.weapon, RuleKey(itemClass, subclass), groupPath)))
    else if itemClass == "Armor" then
      if subclass == "" then Success(m.(armor := Put(m.armor, itemClass, Group(groupPath))))
      else if slot == "" then Success(m.(armor := Put(m.armor, subclass, Group(groupPath))))
      else
        match Get(m.armor, subclass).GetOr(BySlot([]))
        case BySlot(slots) => Success(m.(armor := Put(m.armor, subclass, BySlot(Put(slots, slot, groupPath)))))
        case Group(_) => Failure("TypeError: 'str' object does not support item assignment")
    else if itemClass == "Consumable" then
      Success(m.(consumable := Put(m.consumable, RuleKey(itemClass, subclass), groupPath)))
    else
      Success(m.(custom := Put(m.custom, itemClass + ":" + subclass, groupPath)))
  }

  /** After a Weapon or Consumable rule is added, an item of that class under the rule's key gets the new group. */
  lemma AddedRuleCategorizes(m: Mappings, itemClass: string, groupPath: string, subclass: string, slot: string, slot': string, name: string)
    requires itemClass == "Weapon" || itemClass == "Consumable"
    ensures AddCustomMapping(m, itemClass, groupPath, subclass, slot).Success?
    ensures Categorize(AddCustomMapping(m, itemClass, groupPath, subclass, slot).value,
              itemClass, RuleKey(itemClass, subclass), slot', name) == groupPath
  {
    if itemClass == "Weapon" {
      GetPut(m.weapon, RuleKey(itemClass, subclass), groupPath, RuleKey(itemClass, subclass));
    } else {
      GetPut(m.consumable, RuleKey(itemClass, subclass), groupPath, RuleKey(itemClass, subclass));
    }
  }

  /**
   * After an Armor rule with a subclass is added, that subclass in that slot
   * gets the new group; a rule without a slot covers every slot.
   */
  lemma AddedArmorRuleCategorizes(m: Mappings, groupPath: string, subclass: string, slot: string, slot': string, name: string)
    requires subclass != ""
    requires AddCustomMapping(m, "Armor", groupPath, subclass, slot).Success?
    ensures slot != "" ==> Categorize(AddCustomMapping(m, "Armor", groupPath, subclass, slot).value, "Armor", subclass, slot, name) == groupPath
    ensures slot == "" ==> Categorize(AddCustomMapping(m, "Armor", groupPath, subclass, slot).value, "Armor", subclass, slot', name) == groupPath
  {
    var r := AddCustomMapping(m, "Armor", groupPath, subclass, slot).value;
    if slot == "" {
      GetPut(m.armor, subclass, Group(groupPath), subclass);
    } else {
      var slots := Get(m.armor, subclass).GetOr(BySlot([])).slots;
      GetPut(m.armor, subclass, BySlot(Put(slots, slot, groupPath)), subclass);
      GetPut(slots, slot, groupPath, slot);
      KeysPut(slots, slot, groupPath);
    }
  }

  /**
   * Adding a rule writes one entry and nothing else: every other rule key of
   * the targeted table keeps its rule, and an Armor rule for one slot keeps the
   * subclass's other slots.
   */
  lemma AddedRuleFrame(m: Mappings, itemClass: string, groupPath: string, subclass: string, slot: string, k: string, slot': string)
    requires AddCustomMapping(m, itemClass, groupPath, subclass, slot).Success?
    ensures itemClass == "Weapon" && k != RuleKey(itemClass, subclass) ==>
      Get(AddCustomMapping(m, itemClass, groupPath, subclass, slot).value.weapon, k) == Get(m.weapon, k)
    ensures itemClass == "Consumable" && k != RuleKey(itemClass, subclass) ==>
      Get(AddCustomMapping(m, itemClass, groupPath, subclass, slot).value.consumable, k) == Get(m.consumable, k)
    ensures itemClass == "Armor" && k != (if subclass == "" then itemClass else subclass) ==>
      Get(AddCustomMapping(m, itemClass, groupPath, subclass, slot).value.armor, k) == Get(m.armor, k)
    ensures itemClass == "Armor" && subclass != "" && slot != "" && slot' != slot ==>
      var before := Get(m.armor, subclass).GetOr(BySlot([]));
      var after := Get(AddCustomMapping(m, itemClass, groupPath, subclass, slot).value.armor, subclass);
      before.BySlot? && after == Some(BySlot(Put(before.slots, slot, groupPath)))
      && Get(after.value.slots, slot') == Get(before.slots, slot')
  {
    if itemClass == "Weapon" {
      GetPut(m.weapon, RuleKey(itemClass, subclass), groupPath, k);
    } else if itemClass == "Consumable" {
      GetPut(m.consumable, RuleKey(itemClass, subclass), groupPath, k);
    } else if itemClass == "Armor" {
      if subclass == "" {
        GetPut(m.armor, itemClass, Group(groupPath), k);
      } else if slot == "" {
        GetPut(m.armor, subclass, Group(groupPath), k);
      } else {
        var slots := Get(m.armor, subclass).GetOr(BySlot([])).slots;
        GetPut(m.armor, subclass, BySlot(Put(slots, slot, groupPath)), k);
        GetPut(m.armor, subclass, BySlot(Put(slots, slot, groupPath)), subclass);
        GetPut(slots, slot, groupPath, slot');
      }
    }
  }

  /**
   * A rule only changes how items of its own class are categorized, and a rule
   * for any class but Weapon, Armor and Consumable changes nothing at all:
   * `categorize` never reads `custom_mappings`.
   */
  lemma AddedRuleScope(m: Mappings, itemClass: string, groupPath: string, subclass: string, slot: string,
                       itemClass': string, subclass': string, slot': string, name': string)
    requires AddCustomMapping(m, itemClass, groupPath, subclass, slot).Success?
    requires itemClass' != itemClass || itemClass !in {"Weapon", "Armor", "Consumable"}
    ensures Categorize(AddCustomMapping(m, itemClass, groupPath, subclass, slot).value, itemClass', subclass', slot', name')
         == Categorize(m, itemClass', subclass', slot', name')
  {
  }

  /** A group added by a rule is listed by `get_available_groups` afterwards. */
  lemma AddedGroupAvailable(m: Mappings, itemClass: string, groupPath: string, subclass: string, slot: string)
    requires AddCustomMapping(m, itemClass, groupPath, subclass, slot).Success?
    ensures groupPath in Leaves(AddCustomMapping(m, itemClass, groupPath, subclass, slot).value)
  {
    var r := AddCustomMapping(m, itemClass, groupPath, subclass, slot).value;
    if itemClass == "Weapon" {
      GetPut(m.weapon, RuleKey(itemClass, subclass), groupPath, RuleKey(itemClass, subclass));
      GetInValues(r.weapon, RuleKey(itemClass, subclass));
    } else if itemClass == "Consumable" {
      GetPut(m.consumable, RuleKey(itemClass, subclass), groupPath, RuleKey(itemClass, subclass));
      GetInValues(r.consumable, RuleKey(itemClass, subclass));
    } else if itemClass == "Armor" {
      var key := if subclass == "" then itemClass else subclass;
      if subclass == "" || slot == "" {
        GetPut(m.armor, key, Group(groupPath), key);
        var i :| 0 <= i < |r.armor| && r.armor[i] == (key, Group(groupPath));
      } else {
        var slots := Get(m.armor, subclass).GetOr(BySlot([])).slots;
        var rule := BySlot(Put(slots, slot, groupPath));
        GetPut(m.armor, subclass, rule, subclass);
        var i :| 0 <= i < |r.armor| && r.armor[i] == (key, rule);
        GetPut(slots, slot, groupPath, slot);
        var j :| 0 <= j < |rule.slots| && rule.slots[j] == (slot, groupPath);
        assert r.armor[i].1.slots[j].1 in ArmorLeaves(r.armor);
      }
    } else {
      GetPut(m.custom, itemClass + ":" + subclass, groupPath, itemClass + ":" + subclass);
      GetInValues(r.custom, itemClass + ":" + subclass);
    }
  }

  // ---------------------------------------------------------------------------
  // Instances and the class-level defaults
  // ---------------------------------------------------------------------------

  /**
   * `ItemCategorizer()` without a config file: the instance's mappings start as
   * the class-level defaults with no custom mappings. The copy is shallow, so
   * right after construction its weapon, armor and consumable tables are the
   * class-level ones; whether a later rule reaches the class is decided by
   * `AddCustomMappingAsWritten` against `AddCustomMappingIsolated`.
   */
  function NewCategorizer(classDefaults: Mappings): (m: Mappings)
    ensures Aliased(classDefaults, m) && m.custom == []
    ensures m.tradeGoods == classDefaults.tradeGoods && m.recipe == classDefaults.recipe
      && m.gem == classDefaults.gem && m.container == classDefaults.container
  {
    classDefaults.(custom := [])
  }

  /** A new categorizer sorts every item exactly as the class-level defaults do. */
  lemma NewCategorizerCategorizes(classDefaults: Mappings, itemClass: string, subclass: string, slot: string, name: string)
    ensures Categorize(NewCategorizer(classDefaults), itemClass, subclass, slot, name) == Categorize(classDefaults, itemClass, subclass, slot, name)
  {
  }

  /**
   * `DEFAULT_MAPPINGS.copy()` as written: the instance gets a new top-level
   * dict whose values are the class-level inner dicts themselves. While the
   * two are aliased, their weapon, armor and consumable tables are one and
   * the same.
   */
  predicate Aliased(classDefaults: Mappings, instance: Mappings)
  {
    instance.weapon == classDefaults.weapon && instance.armor == classDefaults.armor
    && instance.consumable == classDefaults.consumable
  }

  /**
   * `add_custom_mapping` on an instance created by the shallow copy: a rule
   * written into a weapon, armor or consumable table is written into the
   * class-level table, so the class defaults change with it.
   */
  function AddCustomMappingAsWritten(classDefaults: Mappings, instance: Mappings, itemClass: string, groupPath: string,
                                     subclass: string, slot: string): (r: Result<(Mappings, Mappings), string>)
    requires Aliased(classDefaults, instance)
    ensures r.Success? ==> Aliased(r.value.0, r.value.1)
    ensures r.Success? ==> Success(r.value.1) == AddCustomMapping(instance, itemClass, groupPath, subclass, slot)
  {
    match AddCustomMapping(instance, itemClass, groupPath, subclass, slot)
    case Failure(e) => Failure(e)
    case Success(inst) =>
      Success((classDefaults.(weapon := inst.weapon, armor := inst.armor, consumable := inst.consumable), inst))
  }

  /** With the shallow copy, a Weapon rule added to one instance is seen by every categorizer created afterwards. */
  lemma AsWrittenRuleLeaks(classDefaults: Mappings, instance: Mappings, groupPath: string, subclass: string, name: string)
    requires Aliased(classDefaults, instance)
    ensures AddCustomMappingAsWritten(classDefaults, instance, "Weapon", groupPath, subclass, "").Success?
    ensures Categorize(NewCategorizer(AddCustomMappingAsWritten(classDefaults, instance, "Weapon", groupPath, subclass, "").value.0),
              "Weapon", RuleKey("Weapon", subclass), "", name) == groupPath
  {
    AddedRuleCategorizes(instance, "Weapon", groupPath, subclass, "", "", name);
  }

  /** The concrete case: after one categorizer maps one-hand swords elsewhere, a brand-new one no longer uses the default. */
  lemma AsWrittenFreshInstanceChanged()
    ensures var first := NewCategorizer(DefaultMappings);
      var r := AddCustomMappingAsWritten(DefaultMappings, first, "Weapon", "Custom`Blades", "Sword (1H)", "");
      r.Success? && Categorize(NewCategorizer(r.value.0), "Weapon", "Sword (1H)", "", "") == "Custom`Blades"
    ensures Categorize(NewCategorizer(DefaultMappings), "Weapon", "Sword (1H)", "", "") == "Transmog`Swords`One Hand"
  {
    AsWrittenRuleLeaks(DefaultMappings, NewCategorizer(DefaultMappings), "Custom`Blades", "Sword (1H)", "");
  }

  /**
   * `add_custom_mapping` as intended: the instance's own tables change and
   * the class defaults do not.
   */
  function AddCustomMappingIsolated(classDefaults: Mappings, instance: Mappings, itemClass: string, groupPath: string,
                                    subclass: string, slot: string): (r: Result<(Mappings, Mappings), string>)
    ensures r.Success? ==> r.value.0 == classDefaults
    ensures r.Success? <==> AddCustomMapping(instance, itemClass, groupPath, subclass, slot).Success?
    ensures r.Success? ==> Success(r.value.1) == AddCustomMapping(instance, itemClass, groupPath, subclass, slot)
  {
    match AddCustomMapping(instance, itemClass, groupPath, subclass, slot)
    case Failure(e) => Failure(e)
    case Success(inst) => Success((classDefaults, inst))
  }

  /**
   * With instances that own their tables, a categorizer created after any
   * rule was added elsewhere categorizes every item exactly as one created
   * before it. This follows at once from `AddCustomMappingIsolated`'s
   * contract that the class defaults come back unchanged; the lemma states
   * the consequence for `categorize`.
   */
  lemma IsolatedRuleDoesNotLeak(classDefaults: Mappings, instance: Mappings, itemClass: string, groupPath: string,
                                subclass: string, slot: string, itemClass': string, subclass': string, slot': string, name': string)
    requires AddCustomMappingIsolated(classDefaults, instance, itemClass, groupPath, subclass, slot).Success?
    ensures Categorize(NewCategorizer(AddCustomMappingIsolated(classDefaults, instance, itemClass, groupPath, subclass, slot).value.0),
              itemClass', subclass', slot', name')
         == Categorize(NewCategorizer(classDefaults), itemClass', subclass', slot', name')
  {
  }
}
