/**
 * The item table of a saved-variables file and the queries over it
 * (`parse_items`, `get_format_type`, `get_existing_item_ids` and
 * `get_items_by_group` of `TSMLuaParser`).
 *
 * Items map key text to a group path. Classic matches are stored first, each
 * one overwriting an earlier match of the same key; retail matches follow,
 * with trailing colons stripped, and are stored only under a key that is not
 * present yet. Every stored group path is also recorded in the group set.
 */
module LuaParser {
  import opened Wrappers
  import opened Strings
  import opened Dict
  import opened ItemKeys
  import opened LuaScan

  /** The parser's fields: key text to group path, and every group path seen. */
  datatype ParseState = ParseState(items: Dict<string, string>, groups: set<string>)

  /** Every stored group path is a member of `groups`. */
  predicate ValuesIn(d: Dict<string, string>, groups: set<string>)
  {
    forall k :: k in Keys(d) ==> Get(d, k).value in groups
  }

  function EntryKeys(entries: seq<(string, string)>): set<string>
  {
    set i | 0 <= i < |entries| :: entries[i].0
  }

  function StrippedKeys(entries: seq<(string, string)>): set<string>
  {
    set i | 0 <= i < |entries| :: TrimRight(entries[i].0, ':')
  }

  function EntryGroups(entries: seq<(string, string)>): set<string>
  {
    set i | 0 <= i < |entries| :: entries[i].1
  }

  lemma EntryKeysSnoc(entries: seq<(string, string)>)
    requires |entries| > 0
    ensures EntryKeys(entries) == EntryKeys(entries[..|entries| - 1]) + {entries[|entries| - 1].0}
    ensures StrippedKeys(entries) == StrippedKeys(entries[..|entries| - 1]) + {TrimRight(entries[|entries| - 1].0, ':')}
    ensures EntryGroups(entries) == EntryGroups(entries[..|entries| - 1]) + {entries[|entries| - 1].1}
  {
    var init := entries[..|entries| - 1];
    assert forall i :: 0 <= i < |init| ==> init[i] == entries[i];
  }

  lemma PutValuesIn(d: Dict<string, string>, groups: set<string>, k: string, v: string)
    requires ValuesIn(d, groups)
    ensures ValuesIn(Put(d, k, v), groups + {v})
  {
    KeysPut(d, k, v);
    forall k' | k' in Keys(Put(d, k, v)) ensures Get(Put(d, k, v), k').value in groups + {v} {
      GetPut(d, k, v, k');
    }
  }

  /** The group paths stored under keys of `d` that are not in `known`. */
  function GroupsOfNewKeys(known: set<string>, d: Dict<string, string>): set<string>
  {
    set k | k in Keys(d) && k !in known :: Get(d, k).value
  }

  /** Storing a key that is neither known nor present adds exactly its group to the new keys' groups. */
  lemma GroupsOfNewKeysPut(known: set<string>, d: Dict<string, string>, k: string, v: string)
    requires k !in known && k !in Keys(d)
    ensures GroupsOfNewKeys(known, Put(d, k, v)) == GroupsOfNewKeys(known, d) + {v}
  {
    KeysPut(d, k, v);
    GetPutEverywhere(d, k, v);
    assert Get(Put(d, k, v), k).value == v;
  }

  /** The classic loop of `parse_items`: `items[key] = group` for every match, in order. */
  function StoreClassic(st: ParseState, entries: seq<(string, string)>): (r: ParseState)
    requires UniqueKeys(st.items) && ValuesIn(st.items, st.groups)
    ensures UniqueKeys(r.items) && ValuesIn(r.items, r.groups)
    ensures st.groups <= r.groups <= st.groups + EntryGroups(entries)
    ensures Keys(r.items) == Keys(st.items) + EntryKeys(entries)
  {
    if |entries| == 0 then st
    else
      var prev := StoreClassic(st, entries[..|entries| - 1]);
      var key := entries[|entries| - 1].0;
      var group := entries[|entries| - 1].1;
      EntryKeysSnoc(entries);
      PutUnique(prev.items, key, group);
      PutValuesIn(prev.items, prev.groups, key, group);
      KeysPut(prev.items, key, group);
      ParseState(Put(prev.items, key, group), prev.groups + {group})
  }

  /** The classic loop adds the group of every match to the group set, even one whose key a later match overwrites. */
  lemma {:induction false} StoreClassicGroups(st: ParseState, entries: seq<(string, string)>)
    requires UniqueKeys(st.items) && ValuesIn(st.items, st.groups)
    ensures StoreClassic(st, entries).groups == st.groups + EntryGroups(entries)
    decreases |entries|
  {
    if |entries| == 0 {
      assert EntryGroups(entries) == {};
    } else {
      StoreClassicGroups(st, entries[..|entries| - 1]);
      EntryKeysSnoc(entries);
    }
  }

  /** The retail loop of `parse_items`: strip trailing colons, store only under an absent key. */
  function StoreRetail(st: ParseState, entries: seq<(string, string)>): (r: ParseState)
    requires UniqueKeys(st.items) && ValuesIn(st.items, st.groups)
    ensures UniqueKeys(r.items) && ValuesIn(r.items, r.groups)
    ensures st.groups <= r.groups <= st.groups + EntryGroups(entries)
    ensures Keys(r.items) == Keys(st.items) + StrippedKeys(entries)
  {
    if |entries| == 0 then st
    else
      var prev := StoreRetail(st, entries[..|entries| - 1]);
      var key := TrimRight(entries[|entries| - 1].0, ':');
      var group := entries[|entries| - 1].1;
      EntryKeysSnoc(entries);
      if key in Keys(prev.items) then prev
      else
        PutUnique(prev.items, key, group);
        PutValuesIn(prev.items, prev.groups, key, group);
        KeysPut(prev.items, key, group);
        ParseState(Put(prev.items, key, group), prev.groups + {group})
  }

  /**
   * The retail loop adds to the group set exactly the groups it stores under
   * keys that were not present before it: a match whose key is already stored
   * adds no group.
   */
  lemma {:induction false} StoreRetailGroups(st: ParseState, entries: seq<(string, string)>)
    requires UniqueKeys(st.items) && ValuesIn(st.items, st.groups)
    ensures StoreRetail(st, entries).groups == st.groups + GroupsOfNewKeys(Keys(st.items), StoreRetail(st, entries).items)
    decreases |entries|
  {
    if |entries| == 0 {
      assert GroupsOfNewKeys(Keys(st.items), st.items) == {};
    } else {
      var init := entries[..|entries| - 1];
      StoreRetailGroups(st, init);
      var prev := StoreRetail(st, init);
      var key := TrimRight(entries[|entries| - 1].0, ':');
      if key !in Keys(prev.items) {
        GroupsOfNewKeysPut(Keys(st.items), prev.items, key, entries[|entries| - 1].1);
      }
    }
  }

  /** A retail match whose key is already stored adds neither its item nor its group. */
  lemma RetailSkippedGroupNotAdded()
    ensures StoreRetail(ParseState([], {}), [("i:1", "A"), ("i:1", "B")]).groups == {"A"}
  {
    var st := ParseState([], {});
    var entries := [("i:1", "A"), ("i:1", "B")];
    assert TrimRight("i:1", ':') == "i:1";
    assert entries[..1] == [("i:1", "A")];
    assert [("i:1", "A")][..0] == [];
    var one := StoreRetail(st, entries[..1]);
    assert one.items == [("i:1", "A")];
    assert "i:1" in Keys(one.items);
  }

  /** Both loops of `parse_items`, starting from an empty item table and the groups already known. */
  function MergeItems(classic: seq<(string, string)>, retail: seq<(string, string)>, groups: set<string>): (r: ParseState)
    ensures UniqueKeys(r.items) && ValuesIn(r.items, r.groups)
    ensures groups <= r.groups <= groups + EntryGroups(classic) + EntryGroups(retail)
    ensures r.groups == groups + EntryGroups(classic) + GroupsOfNewKeys(EntryKeys(classic), r.items)
    ensures Keys(r.items) == EntryKeys(classic) + StrippedKeys(retail)
  {
    assert Keys<string, string>([]) == {};
    StoreClassicGroups(ParseState([], groups), classic);
    StoreRetailGroups(StoreClassic(ParseState([], groups), classic), retail);
    StoreRetail(StoreClassic(ParseState([], groups), classic), retail)
  }

  /** The classic matches of `parse_items`, in text order. */
  function ClassicEntries(content: string): seq<(string, string)>
  {
    FindAllEntries(content, ClassicPattern, 0)
  }

  /** The retail matches of `parse_items`: every bonus-pattern match, then every simple-pattern match. */
  function RetailEntries(content: string): seq<(string, string)>
  {
    FindAllEntries(content, RetailBonusPattern, 0) + FindAllEntries(content, RetailSimplePattern, 0)
  }

  /**
   * `parse_items`: the item table is rebuilt from nothing; its keys are exactly
   * the classic keys and the colon-trimmed retail keys found in the text. The
   * group set gains the group of every classic match, including one whose key a
   * later match overwrote, and the group of a retail match only when it stored a
   * new key.
   */
  function ParseItems(content: string, groups: set<string>): (r: ParseState)
    ensures UniqueKeys(r.items) && ValuesIn(r.items, r.groups)
    ensures Keys(r.items) == EntryKeys(ClassicEntries(content)) + StrippedKeys(RetailEntries(content))
    ensures groups <= r.groups <= groups + EntryGroups(ClassicEntries(content)) + EntryGroups(RetailEntries(content))
    ensures r.groups == groups + EntryGroups(ClassicEntries(content))
                       + GroupsOfNewKeys(EntryKeys(ClassicEntries(content)), r.items)
    ensures forall k :: k in Keys(r.items) ==> GetItemId(k).Some?
  {
    ParsedKeysDecode(content, groups);
    MergeItems(ClassicEntries(content), RetailEntries(content), groups)
  }

  /** The parser state the queries work on: the items are parsed first when none are known. */
  function ItemsFirst(st: ParseState, content: string): ParseState
  {
    if |st.items| == 0 then ParseItems(content, st.groups) else st
  }

  // ---------------------------------------------------------------------------
  // Precedence of the merge
  // ---------------------------------------------------------------------------

  /** A classic key ends up holding the group of its last match. */
  lemma {:induction false} ClassicLastWins(st: ParseState, entries: seq<(string, string)>, i: nat)
    requires UniqueKeys(st.items) && ValuesIn(st.items, st.groups)
    requires i < |entries|
    requires forall j :: i < j < |entries| ==> entries[j].0 != entries[i].0
    ensures Get(StoreClassic(st, entries).items, entries[i].0) == Some(entries[i].1)
    decreases |entries|
  {
    var init := entries[..|entries| - 1];
    var prev := StoreClassic(st, init);
    GetPut(prev.items, entries[|entries| - 1].0, entries[|entries| - 1].1, entries[i].0);
    if i < |entries| - 1 {
      ClassicLastWins(st, init, i);
    }
  }

  /** The retail loop never changes the group of a key that is already stored. */
  lemma {:induction false} RetailKeepsExisting(st: ParseState, entries: seq<(string, string)>, k: string)
    requires UniqueKeys(st.items) && ValuesIn(st.items, st.groups)
    requires k in Keys(st.items)
    ensures Get(StoreRetail(st, entries).items, k) == Get(st.items, k)
    decreases |entries|
  {
    if |entries| > 0 {
      var init := entries[..|entries| - 1];
      var prev := StoreRetail(st, init);
      RetailKeepsExisting(st, init, k);
      var key := TrimRight(entries[|entries| - 1].0, ':');
      if key !in Keys(prev.items) {
        GetPut(prev.items, key, entries[|entries| - 1].1, k);
      }
    }
  }

  /** A new retail key holds the group of its first match; later matches do not overwrite it. */
  lemma {:induction false} RetailFirstWins(st: ParseState, entries: seq<(string, string)>, j: nat)
    requires UniqueKeys(st.items) && ValuesIn(st.items, st.groups)
    requires j < |entries|
    requires TrimRight(entries[j].0, ':') !in Keys(st.items)
    requires forall i :: 0 <= i < j ==> TrimRight(entries[i].0, ':') != TrimRight(entries[j].0, ':')
    ensures Get(StoreRetail(st, entries).items, TrimRight(entries[j].0, ':')) == Some(entries[j].1)
    decreases |entries|
  {
    var key := TrimRight(entries[j].0, ':');
    var init := entries[..|entries| - 1];
    var prev := StoreRetail(st, init);
    var lastKey := TrimRight(entries[|entries| - 1].0, ':');
    if j == |entries| - 1 {
      assert forall i :: 0 <= i < |init| ==> TrimRight(init[i].0, ':') != key;
      assert key !in StrippedKeys(init);
      assert key !in Keys(prev.items);
      GetPut(prev.items, key, entries[j].1, key);
    } else {
      assert init[j] == entries[j];
      assert forall i :: 0 <= i < j ==> init[i] == entries[i];
      RetailFirstWins(st, init, j);
      if lastKey !in Keys(prev.items) {
        GetPut(prev.items, lastKey, entries[|entries| - 1].1, key);
      }
    }
  }

  /**
   * The merge rules of `parse_items`: a classic key holds its last classic match
   * whatever the retail matches say, and a retail key no classic match claimed
   * holds its first retail match.
   */
  lemma MergePrecedence(classic: seq<(string, string)>, retail: seq<(string, string)>, groups: set<string>)
    ensures forall i | 0 <= i < |classic| && (forall j :: i < j < |classic| ==> classic[j].0 != classic[i].0) ::
      Get(MergeItems(classic, retail, groups).items, classic[i].0) == Some(classic[i].1)
    ensures forall j | 0 <= j < |retail| && TrimRight(retail[j].0, ':') !in EntryKeys(classic)
      && (forall i :: 0 <= i < j ==> TrimRight(retail[i].0, ':') != TrimRight(retail[j].0, ':')) ::
      Get(MergeItems(classic, retail, groups).items, TrimRight(retail[j].0, ':')) == Some(retail[j].1)
  {
    var st0 := ParseState([], groups);
    var st1 := StoreClassic(st0, classic);
    forall i | 0 <= i < |classic| && (forall j :: i < j < |classic| ==> classic[j].0 != classic[i].0)
      ensures Get(MergeItems(classic, retail, groups).items, classic[i].0) == Some(classic[i].1)
    {
      ClassicLastWins(st0, classic, i);
      RetailKeepsExisting(st1, retail, classic[i].0);
    }
    forall j | 0 <= j < |retail| && TrimRight(retail[j].0, ':') !in EntryKeys(classic)
      && (forall i :: 0 <= i < j ==> TrimRight(retail[i].0, ':') != TrimRight(retail[j].0, ':'))
      ensures Get(MergeItems(classic, retail, groups).items, TrimRight(retail[j].0, ':')) == Some(retail[j].1)
    {
      RetailFirstWins(st1, retail, j);
    }
  }

  /** A key stored by the classic loop decodes to an id and is not in the retail form. */
  lemma ClassicKeyDecodes(entries: seq<(string, string)>, k: string)
    requires forall i :: 0 <= i < |entries| ==> KeyFits(ClassicPattern, entries[i].0)
    requires k in EntryKeys(entries)
    ensures GetItemId(k).Some? && !IsRetailFormat(k)
  {
    var i :| 0 <= i < |entries| && entries[i].0 == k;
    ShapedKeysDecode(k);
  }

  /** A key stored by the retail loop (its colons trimmed) decodes to an id and is in the retail form. */
  lemma RetailKeyDecodes(entries: seq<(string, string)>, k: string)
    requires forall i :: 0 <= i < |entries| ==> IsRetailKeyShape(entries[i].0)
    requires k in StrippedKeys(entries)
    ensures GetItemId(k).Some? && IsRetailFormat(k)
  {
    var j :| 0 <= j < |entries| && TrimRight(entries[j].0, ':') == k;
    ShapedKeysDecode(entries[j].0);
  }

  /** Every key `parse_items` stores decodes to an id. */
  lemma ParsedKeysDecode(content: string, groups: set<string>)
    ensures forall k :: k in Keys(MergeItems(ClassicEntries(content), RetailEntries(content), groups).items) ==> GetItemId(k).Some?
  {
    var classic := ClassicEntries(content);
    var retail := RetailEntries(content);
    assert forall i :: 0 <= i < |retail| ==> IsRetailKeyShape(retail[i].0);
    forall k | k in Keys(MergeItems(classic, retail, groups).items) ensures GetItemId(k).Some? {
      if k in EntryKeys(classic) {
        ClassicKeyDecodes(classic, k);
      } else {
        RetailKeyDecodes(retail, k);
      }
    }
  }

  // ---------------------------------------------------------------------------
  // Queries over the item table
  // ---------------------------------------------------------------------------

  datatype FormatType = RetailFormat | ClassicFormat

  /** The loop of `get_format_type`: retail exactly when some key starts with `i:`. */
  function FormatOf(items: Dict<string, string>): (r: FormatType)
    ensures r == RetailFormat <==> exists i :: 0 <= i < |items| && IsRetailFormat(items[i].0)
  {
    if |items| == 0 then ClassicFormat
    else if IsRetailFormat(items[0].0) then RetailFormat
    else
      var r := FormatOf(items[1..]);
      assert forall i :: 0 < i < |items| ==> items[i] == items[1..][i - 1];
      r
  }

  /** The loop of `get_existing_item_ids`: the decoded ids of the keys, without those that decode to 0. */
  function ItemIdsOf(items: Dict<string, string>): (r: set<nat>)
    ensures forall id :: id in r <==> id != 0 && exists i :: 0 <= i < |items| && GetItemId(items[i].0) == Some(id)
  {
    if |items| == 0 then {}
    else
      var rest := ItemIdsOf(items[1..]);
      assert forall i :: 0 < i < |items| ==> items[i] == items[1..][i - 1];
      match GetItemId(items[0].0)
      case Some(id) => if id != 0 then {id} + rest else rest
      case None => rest
  }

  /** The comprehension of `get_items_by_group`: the keys whose group is `group`. */
  function KeysInGroup(items: Dict<string, string>, group: string): (r: seq<string>)
    requires UniqueKeys(items)
    ensures |r| <= |items|
    ensures forall k :: k in r <==> k in Keys(items) && Get(items, k) == Some(group)
    ensures forall i, j :: 0 <= i < j < |r| ==> r[i] != r[j]
  {
    if |items| == 0 then []
    else
      KeysCons(items);
      var rest := KeysInGroup(items[1..], group);
      assert forall i :: 0 <= i < |items[1..]| ==> items[1..][i].0 != items[0].0;
      if items[0].1 == group then [items[0].0] + rest else rest
  }

  /**
   * `get_format_type`: the items are parsed first when none are known; the
   * format is then retail exactly when some stored key starts with `i:`.
   */
  function GetFormatType(st: ParseState, content: string): (r: (ParseState, FormatType))
    ensures |st.items| > 0 ==> r.0 == st
    ensures |st.items| == 0 ==> r.0 == ParseItems(content, st.groups)
    ensures r.1 == RetailFormat <==> exists k :: k in Keys(r.0.items) && IsRetailFormat(k)
  {
    var s := ItemsFirst(st, content);
    (s, FormatOf(s.items))
  }

  /**
   * `get_existing_item_ids`: the items are parsed first when none are known; the
   * ids are then exactly the nonzero ids the stored keys decode to.
   */
  function GetExistingItemIds(st: ParseState, content: string): (r: (ParseState, set<nat>))
    ensures |st.items| > 0 ==> r.0 == st
    ensures |st.items| == 0 ==> r.0 == ParseItems(content, st.groups)
    ensures forall id :: id in r.1 <==> id != 0 && exists k :: k in Keys(r.0.items) && GetItemId(k) == Some(id)
  {
    var s := ItemsFirst(st, content);
    (s, ItemIdsOf(s.items))
  }

  /** Once an encoded key is stored, its id is among the existing ids (unless the id is 0). */
  lemma StoredKeyIsExisting(st: ParseState, content: string, k: ItemKey, group: string)
    requires k.id != 0
    ensures k.id in GetExistingItemIds(st.(items := Put(st.items, Encode(k), group)), content).1
  {
    var d := Put(st.items, Encode(k), group);
    GetPut(st.items, Encode(k), group, Encode(k));
    DecodeEncode(k);
    var i :| 0 <= i < |d| && d[i] == (Encode(k), group);
  }

  /**
   * `get_items_by_group`: the items are parsed first when none are known; the
   * result then lists exactly the keys assigned to `group`, each once.
   */
  function GetItemsByGroup(st: ParseState, content: string, group: string): (r: (ParseState, seq<string>))
    requires UniqueKeys(st.items)
    ensures |st.items| > 0 ==> r.0 == st
    ensures |st.items| == 0 ==> r.0 == ParseItems(content, st.groups)
    ensures |r.1| <= |r.0.items|
    ensures forall k :: k in r.1 <==> k in Keys(r.0.items) && Get(r.0.items, k) == Some(group)
    ensures forall i, j :: 0 <= i < j < |r.1| ==> r.1[i] != r.1[j]
  {
    var s := ItemsFirst(st, content);
    (s, KeysInGroup(s.items, group))
  }
}
