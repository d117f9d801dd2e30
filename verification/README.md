# TSM-Scraper core in Dafny

This project models the text-processing core of TSM-Scraper. TSM-Scraper reads
TradeSkillMaster saved-variables files, which are Lua tables serialized as text.
It assigns game items to TSM groups. The model covers four parts.

- **Saved-variables reading** (`TSMLuaParser`):
  - the two item-key encodings and their decoder;
  - the item-assignment merge of `parse_items`;
  - the brace walk that bounds the Ascension `["groups"]` section, and the group names read from the text;
  - the format, id and by-group queries;
  - the parent/child group hierarchy;
  - the line span of the `["S"]` items table.
- **Rule-based categorizer** (`ItemCategorizer`):
  - the ordered rules that turn item metadata into a group path;
  - batch partitioning;
  - the sorted list of known groups;
  - custom-rule insertion.
- **Batch import id loader** (`load_item_ids`): every whole word of three to eight digits, deduplicated.
- **Ascension scraper helpers**:
  - the item record and its dict form;
  - cache file names;
  - id extraction from a list page;
  - the result limit;
  - weapon and armor group paths.

Python values become Dafny values:
- A `dict` is an insertion-ordered sequence of pairs (module `Dict`). Assigning to a present key replaces its value in place. Assigning to a new key appends the pair.
- A `set` is a Dafny `set`.
- `sorted` over strings is Python's code-point order (module `StringOrder`).
- Every regular expression is a hand-written scanner with `re.findall` semantics: it tries each position in turn and resumes after the end of each match.
- Integers are unbounded, as in Python.

Modules:

| file | module | models |
|---|---|---|
| wrappers.dfy | Wrappers | `Option`, `Result` |
| strings.dfy | Strings | ASCII character classes, `lower`, `capitalize`, `find`, `count`, `split`, `join`, `rstrip`, `int`/`str` on digits |
| dict.dfy | Dict | Python `dict` get and item assignment |
| string_order.dfy | StringOrder | string `<`, `sorted(set)` |
| item_keys.dfy | ItemKeys | `get_item_id`, `is_retail_format`, key encodings |
| lua_scan.dfy | LuaScan | the item-assignment and table-key patterns of the parser |
| lua_parser.dfy | LuaParser | `parse_items`, `get_format_type`, `get_existing_item_ids`, `get_items_by_group` |
| group_section.dfy | GroupSection | `parse_groups` |
| hierarchy.dfy | Hierarchy | `get_group_hierarchy` |
| s_table.dfy | STable | `find_s_table_location` |
| categorizer.dfy | Categorizer | `ItemCategorizer` |
| batch_import.dfy | BatchImport | `load_item_ids` |
| ascension_scraper.dfy | AscensionScraper | `AscensionItem`, `AscensionDBScraper` helpers |

Behaviours of the code that the model keeps as written:
- An unbalanced `["groups"]` section runs to the end of the text, and `content[b+1:pos-1]` then drops its last character (`SectionEnd`, `SectionText`).
- The categorizer holds mutable mappings that `add_custom_mapping` changes (see Findings).
- The retail bonus pattern of `parse_items` ends its key with a literal backslash, optionally followed by `"`, and then `]`. It therefore matches only keys written with an escaped quote, or with a backslash right before `]`. `BracketKey` models it as written.
- `find_s_table_location` restarts at every later marker line before the end is found.
- A one-line `["S"] = {}` table does not end on its own line, because the marker line is skipped by `continue`. Its count starts at 0, so it ends on the next line only when that line has no more `{` than `}`; otherwise it ends on the first later line where the running count is back to at most 0.
- `add_custom_mapping` for a class other than Weapon, Armor or Consumable stores into `custom_mappings`, which `categorize` never reads, so such a rule has no effect on categorization (`AddedRuleScope`).

## Model

| member | source | states |
|---|---|---|
| Strings.Find | src/tsm_scraper/lua_parser.py:114-120 | `str.find`: the first occurrence at or after the start, or -1 when there is none |
| Strings.TrimRight | src/tsm_scraper/lua_parser.py:89 | `rstrip(':')`: a prefix of the key that does not end in `:`, with only colons removed |
| Strings.Split | src/tsm_scraper/lua_parser.py:222 | `split` yields at least one part, and no part contains the separator |
| Strings.JoinSplit | src/tsm_scraper/lua_parser.py:222-225 | joining the parts of a split gives the text back |
| Strings.SplitJoin | src/tsm_scraper/lua_parser.py:222-225 | splitting the join of separator-free parts gives the parts back |
| Strings.NatToString | src/tsm_scraper/ascension_scraper.py:541 | `str(n)` is a nonempty digit string whose value is n, with no leading zero unless n is 0 |
| Strings.Lower | src/tsm_scraper/ascension_scraper.py:729 | `lower()` keeps the length and lower-cases each ASCII letter in place |
| Strings.Capitalize | src/tsm_scraper/ascension_scraper.py:733-734 | `capitalize()` keeps the length, upper-cases the first character and lower-cases the rest |
| Strings.CapitalizeIgnoresCase | src/tsm_scraper/ascension_scraper.py:733-734 | capitalizing does not depend on the case the text had, and lower-casing undoes it |
| Dict.Get | src/tsm_scraper/lua_parser.py:90 | a dict lookup finds a value exactly when the key is present, and the pair is stored |
| Dict.Put | src/tsm_scraper/lua_parser.py:81 | item assignment appends a new key and keeps the key order of a present one |
| Dict.GetPut | src/tsm_scraper/lua_parser.py:81 | after `d[k] = v`, k holds v and every other key holds its old value |
| Dict.PutUnique | src/tsm_scraper/lua_parser.py:81 | item assignment keeps the keys unique |
| ItemKeys.PrefixesExclusive | src/tsm_scraper/lua_parser.py:161-169 | no key starts with both `i:` and `item:` |
| ItemKeys.IsRetailFormat | src/tsm_scraper/lua_parser.py:173-175 | a key is retail exactly when it starts with `i:`, so a classic `item:` key never is |
| ItemKeys.LeadingNumber | src/tsm_scraper/lua_parser.py:162-164 | `(\d+)` matches at a position exactly when a digit is there |
| ItemKeys.GetItemId | src/tsm_scraper/lua_parser.py:153-171 | the id is the leading digit run after `i:`, else after `item:`; any other key has no id |
| ItemKeys.DecodeEncode | src/tsm_scraper/lua_parser.py:153-171 | decoding an encoded classic or retail key (with any bonus list) gives its id, and it is retail exactly for the retail encoding |
| ItemKeys.ShapedKeysDecode | src/tsm_scraper/lua_parser.py:69-89 | every key shape the item patterns accept decodes to an id, even after stripping trailing colons |
| LuaScan.AssignmentOpen | src/tsm_scraper/lua_parser.py:137 | `\s*=\s*` then the opening character: -1 when there is no such span, else the index just after that character, and that span is the only one |
| LuaScan.QuotedValue | src/tsm_scraper/lua_parser.py:69 | `\s*=\s*"([^"]+)"`: a found value is a match, nonempty and without quotes |
| LuaScan.QuotedValueComplete | src/tsm_scraper/lua_parser.py:69 | whenever the quoted value matches at a position, `QuotedValue` finds that value and end |
| LuaScan.BracketKey | src/tsm_scraper/lua_parser.py:69-76 | a found bracketed key is a match of the pattern: `["`, a key of the pattern's shape, then `"]`, or for the bonus form a backslash, an optional `"` and `]` |
| LuaScan.BracketKeySpanUnique | src/tsm_scraper/lua_parser.py:69-76 | whenever a bracketed key matches at a position, `BracketKey` finds that key and end |
| LuaScan.ItemEntryAt | src/tsm_scraper/lua_parser.py:69-76 | a found assignment is a match of the pattern at the position, with a fitting key and a nonempty, quote-free group |
| LuaScan.ItemEntryAtComplete | src/tsm_scraper/lua_parser.py:69-76 | the match at a position is unique, and `ItemEntryAt` finds it |
| LuaScan.ItemEntryAtNone | src/tsm_scraper/lua_parser.py:69-76 | `ItemEntryAt` finds nothing exactly when the pattern does not match at the position |
| LuaScan.FindAllEntries | src/tsm_scraper/lua_parser.py:79-86 | every (key, group) pair `findall` returns has a fitting key and a nonempty, quote-free group |
| LuaScan.FindAllEntriesEmpty | src/tsm_scraper/lua_parser.py:79-86 | `findall` returns nothing exactly when the pattern matches at no position |
| LuaScan.FindAllEntriesFirst | src/tsm_scraper/lua_parser.py:79-86 | the leftmost match comes first, and the scan resumes at its end |
| LuaScan.TableKeyAt | src/tsm_scraper/lua_parser.py:137 | `["name"] = {` yields a nonempty name without quotes |
| LuaScan.TableKeyAtSound | src/tsm_scraper/lua_parser.py:137 | what `TableKeyAt` finds is a match of `\["([^"]+)"\]\s*=\s*\{` at the position |
| LuaScan.TableKeyAtComplete | src/tsm_scraper/lua_parser.py:137 | the match at a position is unique, and `TableKeyAt` finds it |
| LuaScan.FindAllTableKeys | src/tsm_scraper/lua_parser.py:146-147 | every name found is nonempty and quote-free, and holds an inner backtick for the backtick pattern |
| LuaScan.FindAllTableKeysEmpty | src/tsm_scraper/lua_parser.py:137-147 | `findall` returns nothing exactly when the pattern matches at no position |
| LuaScan.FindAllTableKeysFirst | src/tsm_scraper/lua_parser.py:137-147 | the leftmost match comes first, and the scan resumes at its end |
| LuaScan.FindAllTableKeysSound | src/tsm_scraper/lua_parser.py:137-147 | every name returned is the name of a match at a position at or after the start |
| LuaParser.StoreClassic | src/tsm_scraper/lua_parser.py:79-82 | the classic loop keeps keys unique, stores exactly the matched keys, and keeps the group set between the known groups and those plus the matches' groups |
| LuaParser.StoreClassicGroups | src/tsm_scraper/lua_parser.py:79-82 | the classic loop adds exactly the group of every match to the group set, one whose key a later match overwrote included |
| LuaParser.StoreRetail | src/tsm_scraper/lua_parser.py:85-92 | the retail loop keeps keys unique, adds exactly the colon-stripped keys, and keeps the group set between the known groups and those plus the matches' groups |
| LuaParser.StoreRetailGroups | src/tsm_scraper/lua_parser.py:85-92 | the retail loop adds to the group set exactly the groups it stored under keys that were absent before it, and no group of a skipped match |
| LuaParser.MergeItems | src/tsm_scraper/lua_parser.py:78-92 | the stored keys are the classic keys plus the stripped retail keys; the group set is the known groups, every classic group, and the groups of the keys only retail matches stored |
| LuaParser.ClassicLastWins | src/tsm_scraper/lua_parser.py:80-81 | a classic key holds the group of its last match |
| LuaParser.RetailKeepsExisting | src/tsm_scraper/lua_parser.py:90 | the retail loop never overwrites a key already stored |
| LuaParser.RetailSkippedGroupNotAdded | src/tsm_scraper/lua_parser.py:88-92 | a retail match under a key already stored adds neither the item nor its group: `i:1` matched with A then B leaves the group set `{A}` |
| LuaParser.RetailFirstWins | src/tsm_scraper/lua_parser.py:85-92 | a new retail key holds the group of its first match |
| LuaParser.MergePrecedence | src/tsm_scraper/lua_parser.py:78-92 | classic matches take precedence over retail ones; a retail-only key holds its first retail match |
| LuaParser.ClassicKeyDecodes | src/tsm_scraper/lua_parser.py:69-82 | a key stored from a classic match decodes to an item id and is not in the `i:` form |
| LuaParser.RetailKeyDecodes | src/tsm_scraper/lua_parser.py:73-92 | a retail key, once its trailing colons are stripped, decodes to an item id and is in the `i:` form |
| LuaParser.ParsedKeysDecode | src/tsm_scraper/lua_parser.py:65-94 | every key `parse_items` stores has an item id |
| LuaParser.ParseItems | src/tsm_scraper/lua_parser.py:65-94 | the item table is rebuilt from nothing: its keys are exactly the classic keys and the colon-stripped retail keys found in the text, all unique and decodable; the group set gains exactly every classic group and the groups of retail-only keys |
| LuaParser.GetFormatType | src/tsm_scraper/lua_parser.py:177-189 | the items are parsed first when the table is empty; the format is retail exactly when some key starts with `i:` |
| LuaParser.GetExistingItemIds | src/tsm_scraper/lua_parser.py:191-201 | the items are parsed first when the table is empty; the ids are exactly the nonzero decoded ids of the keys |
| LuaParser.StoredKeyIsExisting | src/tsm_scraper/lua_parser.py:191-201 | once an encoded key with a nonzero id is stored, its id is existing |
| LuaParser.GetItemsByGroup | src/tsm_scraper/lua_parser.py:203-208 | the items are parsed first when the table is empty; the result is exactly the keys assigned to the group, each once, no more than the table holds |
| GroupSection.DepthStep | src/tsm_scraper/lua_parser.py:125-130 | reading one character moves the depth by +1 for `{`, -1 for `}`, and 0 otherwise |
| GroupSection.Walk | src/tsm_scraper/lua_parser.py:123-130 | the loop stops where the depth first returns to 0, or at the end of the text with depth still positive |
| GroupSection.SectionEnd | src/tsm_scraper/lua_parser.py:120-130 | the walk starts at depth 1, stays positive before its end, and reaches end of text when unbalanced |
| GroupSection.SectionBalanced | src/tsm_scraper/lua_parser.py:123-133 | a closed walk ends on `}`, and the section between the braces has as many `{` as `}` |
| GroupSection.GroupsSection | src/tsm_scraper/lua_parser.py:109-133 | there is no section exactly when the text lacks `AscensionTSMDB` or the marker; otherwise the section is the walked text from the marker's own `{` |
| GroupSection.SectionGroups | src/tsm_scraper/lua_parser.py:109-142 | every section group is the name of a table-key match in the section and not an operation table; without a section there are none |
| GroupSection.SectionGroupsFirst | src/tsm_scraper/lua_parser.py:136-142 | the first table key of the section is a group unless it names an operation table |
| GroupSection.BacktickGroups | src/tsm_scraper/lua_parser.py:144-149 | every group found is a table-key match in the text with an inner backtick, and there are none exactly when that pattern matches nowhere |
| GroupSection.BacktickGroupsFirst | src/tsm_scraper/lua_parser.py:144-149 | the first backtick definition in the text is a group |
| GroupSection.OperationNamesPlain | src/tsm_scraper/lua_parser.py:141 | no operation-table name holds a backtick |
| GroupSection.ParseGroups | src/tsm_scraper/lua_parser.py:96-151 | the items are parsed first when empty, and the groups they collected are kept; the group set then gains exactly the section and backtick groups, never an operation-table name |
| StringOrder.BelowIrreflexive | src/tsm_scraper/lua_parser.py:221 | string order is irreflexive |
| StringOrder.BelowTransitive | src/tsm_scraper/lua_parser.py:221 | string order is transitive |
| StringOrder.BelowTotal | src/tsm_scraper/lua_parser.py:221 | any two different strings are ordered one way or the other |
| StringOrder.InsertSorted | src/tsm_scraper/lua_parser.py:221 | inserting keeps a strictly sorted list sorted and adds exactly the new element |
| StringOrder.SortStrings | src/tsm_scraper/lua_parser.py:221 | `sorted(set)` is strictly increasing and has exactly the set's elements |
| Hierarchy.AddChild | src/tsm_scraper/lua_parser.py:227-230 | creating the parent's list when missing and appending an unlisted child keeps the tree well formed, records the child, forgets nothing and adds no other pair |
| Hierarchy.PrefixChild | src/tsm_scraper/lua_parser.py:224-225 | the path of the first i+1 segments is a child of the path of the first i |
| Hierarchy.AddChain | src/tsm_scraper/lua_parser.py:223-230 | one group's loop records every prefix under its parent prefix, forgets nothing, and adds only links of that chain |
| Hierarchy.Build | src/tsm_scraper/lua_parser.py:221-230 | the outer loop keeps the tree well formed: one entry per parent, no empty or duplicated child list, every child one segment deeper |
| Hierarchy.BuildRecordsChains | src/tsm_scraper/lua_parser.py:221-230 | after the outer loop the recorded pairs are exactly the parent/child links of the groups' prefix chains |
| Hierarchy.HierarchyOf | src/tsm_scraper/lua_parser.py:219-232 | over the sorted groups, a pair is recorded exactly when it is a link of some group's chain, and every group's first segment is under `""` |
| Hierarchy.GetGroupHierarchy | src/tsm_scraper/lua_parser.py:210-232 | the groups are parsed first when none are known; then every prefix link of every group, and nothing else, is listed once under its parent |
| STable.ScanLines | src/tsm_scraper/lua_parser.py:246-258 | (-1, -1) exactly when no line has the marker; otherwise the first table to close, which no earlier-starting table beats; with no table closing anywhere, the last marker line and -1 |
| STable.FindSTableLocation | src/tsm_scraper/lua_parser.py:234-260 | over the lines of the text: (-1, -1) exactly without a marker line; otherwise the first table to close (a marker line, no later marker before the end, a positive running count until the end line brings it to at most 0); with none closing, the last marker line and -1 |
| STable.LocationSpecUnique | src/tsm_scraper/lua_parser.py:234-260 | at most one result meets that description |
| STable.FindSTableLocationUnique | src/tsm_scraper/lua_parser.py:234-260 | any result that meets the description is the one the scan returns |
| Categorizer.FirstFittingSlot | src/tsm_scraper/categorizer.py:232-234 | the first slot key, in table order, whose lower-cased text occurs in the lower-cased slot, or -1 when none does |
| Categorizer.ArmorGroup | src/tsm_scraper/categorizer.py:226-236 | a direct group applies to every slot; an exact slot key wins; otherwise the first fitting slot key wins |
| Categorizer.ConsumableGroup | src/tsm_scraper/categorizer.py:239-252 | subclass first, then name words in the order potion, elixir, flask, scroll, each defaulting to "Other" |
| Categorizer.Categorize | src/tsm_scraper/categorizer.py:198-293 | total: every class gets its rule; an unhandled class gives "Other"; Gem and Container always have a group; Projectile, Quest, Junk are fixed |
| Categorizer.CategorizeYieldsKnownGroup | src/tsm_scraper/categorizer.py:217-293 | every group `categorize` returns is a leaf of the mappings or a built-in fallback |
| Categorizer.GetAvailableGroups | src/tsm_scraper/categorizer.py:324-338 | sorted, duplicate-free, and exactly the string leaves of all mappings |
| Categorizer.CategorizeBatch | src/tsm_scraper/categorizer.py:308-322 | the groups are exactly the items' categories, keys are unique, and the lists hold one id per item in total |
| Categorizer.BatchIsFilter | src/tsm_scraper/categorizer.py:310-320 | each group's list is the ids of the items categorized into it, in input order |
| Categorizer.AddCustomMapping | src/tsm_scraper/categorizer.py:340-375 | fails exactly on a slot under a direct armor group; otherwise only the targeted table changes |
| Categorizer.AddedRuleFrame | src/tsm_scraper/categorizer.py:349-375 | within the targeted table only the rule's own key changes, and a slot rule keeps the subclass's other slots |
| Categorizer.AddedRuleCategorizes | src/tsm_scraper/categorizer.py:349-375 | after a Weapon or Consumable rule is added, items of that class under the rule's key get the new group |
| Categorizer.AddedArmorRuleCategorizes | src/tsm_scraper/categorizer.py:352-361 | after an Armor rule is added, that subclass gets the group for the given slot, or for every slot when no slot is given |
| Categorizer.AddedRuleScope | src/tsm_scraper/categorizer.py:363-375 | a rule changes only its own class, and custom rules change nothing |
| Categorizer.AddedGroupAvailable | src/tsm_scraper/categorizer.py:324-375 | an added rule's group is listed by `get_available_groups` |
| Categorizer.NewCategorizer | src/tsm_scraper/categorizer.py:169-171 | a new categorizer starts from the class defaults with no custom mappings, its weapon, armor and consumable tables shared with the class by the shallow copy |
| Categorizer.NewCategorizerCategorizes | src/tsm_scraper/categorizer.py:169-171 | a new categorizer sorts every item exactly as the class defaults do |
| Categorizer.AddCustomMappingAsWritten | src/tsm_scraper/categorizer.py:171 | with shared tables, a rule lands in the class defaults as well as the instance |
| Categorizer.AsWrittenRuleLeaks | src/tsm_scraper/categorizer.py:171 | a Weapon rule added to one instance is seen by every categorizer created afterwards |
| Categorizer.AsWrittenFreshInstanceChanged | src/tsm_scraper/categorizer.py:171 | concretely, a new categorizer maps `Sword (1H)` to the custom group instead of the default |
| Categorizer.AddCustomMappingIsolated | src/tsm_scraper/categorizer.py:171 | with owned tables, a rule leaves the class defaults unchanged |
| Categorizer.IsolatedRuleDoesNotLeak | src/tsm_scraper/categorizer.py:171 | with owned tables, a categorizer created after a rule was added elsewhere categorizes every item as before; a consequence of `AddCustomMappingIsolated` returning the class defaults unchanged |
| BatchImport.IdSpans | src/debug/batch_import.py:47 | every match is a whole word of 3 to 8 digits, and matches are in text order without overlap |
| BatchImport.IdSpansComplete | src/debug/batch_import.py:47 | no whole word of 3 to 8 digits is missed |
| BatchImport.Dedup | src/debug/batch_import.py:49-53 | same elements as the input, each once |
| BatchImport.DedupKeepsFirstOrder | src/debug/batch_import.py:49-53 | values keep the order of their first appearance |
| BatchImport.LoadItemIds | src/debug/batch_import.py:28-57 | the loaded ids have no duplicates |
| BatchImport.IdValuesSound | src/debug/batch_import.py:47-49 | every matched value is the value of a whole word of 3 to 8 digits |
| BatchImport.IdValuesComplete | src/debug/batch_import.py:47-49 | every whole word of 3 to 8 digits contributes its value |
| BatchImport.LoadItemIdsExact | src/debug/batch_import.py:37-47 | an id is loaded exactly when some whole word of 3 to 8 digits has its value, read from the file when it exists and from the argument otherwise |
| BatchImport.LoadedIdsBelow | src/debug/batch_import.py:47 | every loaded id is below 100000000 |
| AscensionScraper.ToDict | src/tsm_scraper/ascension_scraper.py:54-63 | six entries, one per field, with unique keys |
| AscensionScraper.FromDict | src/tsm_scraper/ascension_scraper.py:586 | succeeds only without unknown keys and with id and name present; absent fields take their defaults |
| AscensionScraper.ToDictFields | src/tsm_scraper/ascension_scraper.py:54-63 | each field of `to_dict` is found under its own name with the item's value |
| AscensionScraper.FromDictToDict | src/tsm_scraper/ascension_scraper.py:54-63 | rebuilding an item from `to_dict` gives the item back |
| AscensionScraper.ToDictKeepsEntries | src/tsm_scraper/ascension_scraper.py:54-63 | every entry of a dict that rebuilds into an item is reproduced by that item's `to_dict` |
| AscensionScraper.SanitizeKey | src/tsm_scraper/ascension_scraper.py:463 | same length; word characters and `-` kept, every other character becomes `_` |
| AscensionScraper.SanitizeKeyIdempotent | src/tsm_scraper/ascension_scraper.py:463 | sanitizing is idempotent, and a key of kept characters is unchanged |
| AscensionScraper.CacheFileName | src/tsm_scraper/ascension_scraper.py:462-464 | `ascension_`, then the sanitized key, then `.json` |
| AscensionScraper.CacheFileNameInjective | src/tsm_scraper/ascension_scraper.py:462-464 | two keys share a cache file exactly when they sanitize to the same text |
| AscensionScraper.CacheFileNameCollides | src/tsm_scraper/ascension_scraper.py:462-464 | keys of equal length that differ only where both characters are outside `[\w\-]` share a cache file, for instance `head piece` and `head_piece` |
| AscensionScraper.DigitsStart | src/tsm_scraper/ascension_scraper.py:502-511 | the digits start after the pattern's prefix: `?item=`, or `"id"` then a whole `\s*:\s*` span |
| AscensionScraper.DigitsStartExact | src/tsm_scraper/ascension_scraper.py:502-511 | the scan stops at `d` exactly when `s[p..d]` is the pattern's prefix, so a match's digits are found and begin at one place |
| AscensionScraper.FindAllIdMatches | src/tsm_scraper/ascension_scraper.py:502-511 | every match has a maximal digit run after its prefix, in text order without overlap |
| AscensionScraper.LargeIds | src/tsm_scraper/ascension_scraper.py:514 | exactly the values above 100 |
| AscensionScraper.CollectLinkIds | src/tsm_scraper/ascension_scraper.py:498-507 | the link loop returns each link id once in first-seen order, with the seen set |
| AscensionScraper.AppendListviewIds | src/tsm_scraper/ascension_scraper.py:509-516 | the listview loop appends exactly the unseen ids above 100 |
| AscensionScraper.CollectItemIds | src/tsm_scraper/ascension_scraper.py:498-518 | no duplicates; link ids come first in first-seen order; the rest are listview ids above 100 |
| AscensionScraper.PageItemIds | src/tsm_scraper/ascension_scraper.py:488-522 | a page's ids have no duplicates, and a failed request gives none |
| AscensionScraper.Take | src/tsm_scraper/ascension_scraper.py:539 | `xs[:limit]` is a prefix of length min(limit, len) for a limit of 0 or more, and len+limit (at least 0) for a negative one |
| AscensionScraper.ScrapeCategory | src/tsm_scraper/ascension_scraper.py:536-549 | a nonempty cached dict answers without fetching; otherwise the page is fetched, its full id list cached, and the result is limited |
| AscensionScraper.ScrapeWeapons | src/tsm_scraper/ascension_scraper.py:524-549 | an unknown weapon type gives nothing and touches neither site nor cache; a result never exceeds a limit of 0 or more |
| AscensionScraper.ScrapeArmor | src/tsm_scraper/ascension_scraper.py:551-579 | the same for armor types, with the slot naming only the cache entry |
| AscensionScraper.ScrapeCacheRoundTrip | src/tsm_scraper/ascension_scraper.py:536-549 | a second scrape that finds the cache entry the first wrote returns the same ids without fetching |
| AscensionScraper.GroupForWeapon | src/tsm_scraper/ascension_scraper.py:727-729 | the table entry of the lower-cased type, else ``Transmog`Other`` |
| AscensionScraper.GroupForWeaponIgnoresCase | src/tsm_scraper/ascension_scraper.py:729 | the lookup ignores case |
| AscensionScraper.ScrapableWeaponsHaveGroups | src/tsm_scraper/ascension_scraper.py:187-204 | every scrapable weapon type has its own group entry |
| AscensionScraper.GroupForArmor | src/tsm_scraper/ascension_scraper.py:731-735 | the backtick join of `Transmog` with the capitalized type and slot |
| AscensionScraper.GroupForArmorSegments | src/tsm_scraper/ascension_scraper.py:731-735 | without backticks in its arguments, the path splits into exactly three segments |

## Left out

- File and network I/O is not modelled:
  - `TSMLuaParser.load`;
  - the categorizer's config load and save;
  - the scraper's cache file reads and writes;
  - HTTP requests, HTML/XML parsing and sleeps.

  Page text, cached dicts and file contents are parameters instead, and the files and URLs written or fetched are outcomes.
- The writer that edits saved-variables files (`TSMLuaWriter`) is not part of this model. Its source is not available.
- `cli.py`, `summary`, the `main` functions and the other debug scripts are left out. They orchestrate and print only.
- Character classes are ASCII only:
  - `\d`, `\w`, `\s`, `lower()` and `capitalize()` act only on ASCII characters;
  - Python's Unicode digits and letters, for example in `\b` and `int()`, are not modelled.
- Categorizer.AddCustomMapping: an absent subclass or slot is modelled as the empty string. Python's `None` and `""` behave the same in this code.
- Categorizer.Mappings: the tables are typed. A config file that stores a value of another shape, such as a list, is outside the model.
- AscensionScraper.FromDict: a field of the wrong JSON kind is rejected. The dataclass itself would accept it unchecked.
- AscensionScraper.ScrapeWeapons: the bound on the result length holds only for a limit of 0 or more. A negative limit counts from the end, as Python slicing does (`Take`).
- AscensionScraper.FindAllIdMatches: only soundness is proved, not completeness of the two page patterns.
- LuaParser.StoreClassic: its own contract bounds the group set; the exact set is stated by `StoreClassicGroups`, a separate lemma so that the recursive function's proof stays small.
- LuaParser.StoreRetail: its own contract bounds the group set; the exact set is stated by `StoreRetailGroups`, for the same reason.
- LuaScan.QuotedValue: its own contract states soundness only. `QuotedValueComplete` states that it finds every match.
- LuaScan.BracketKey: its own contract states soundness only. `BracketKeySpanUnique` states that it finds every match.
- LuaScan.ItemEntryAt: its own contract states soundness only. `ItemEntryAtComplete` and `ItemEntryAtNone` state that it finds every match.
- LuaScan.FindAllEntries: its own contract states soundness only. `FindAllEntriesEmpty` and `FindAllEntriesFirst` state which matches it returns, leftmost first.
- LuaScan.TableKeyAt: its own contract states the shape of the name only. `TableKeyAtSound` and `TableKeyAtComplete` state that it finds exactly the match at the position.
- LuaScan.FindAllTableKeys: its own contract states the shape of the names only. `FindAllTableKeysSound`, `FindAllTableKeysEmpty` and `FindAllTableKeysFirst` state which matches it returns, leftmost first.
- LuaScan.AssignmentOpen: requires an opening character that is not whitespace. The parser only uses `"` and `{`.
- GroupSection.SectionGroups: completeness is stated for the first key of the section (`SectionGroupsFirst`). Later keys follow by applying `FindAllTableKeysFirst` again from the end of each match; the model does not chain these steps into one lemma.
- GroupSection.BacktickGroups: completeness is likewise stated for the first backtick definition (`BacktickGroupsFirst`) and for the empty case.
- Hierarchy.GetGroupHierarchy: the order inside each child list is not stated. The model states which children are listed and that none is listed twice.
- `get_item`, `search_by_name` and `resolve_wowhead_items` are left out, along with the TurtleWoW scraper. They are network plumbing.

## Findings

| source | as written | input that shows it | evidently intended | confidence | as-written member | corrected member |
|---|---|---|---|---|---|---|
| src/tsm_scraper/categorizer.py:171 | The instance's mappings are a shallow copy of `DEFAULT_MAPPINGS`. `add_custom_mapping` therefore writes into the class-level weapon, armor and consumable dicts. | One categorizer runs ``add_custom_mapping("Weapon", "Custom`Blades", "Sword (1H)")``. A new `ItemCategorizer().categorize("Weapon", "Sword (1H)")` then returns ``Custom`Blades`` instead of ``Transmog`Swords`One Hand``. | Each categorizer starts from the defaults, and rules stay in the instance that added them (a deep copy). | not executed; high | Categorizer.AsWrittenRuleLeaks, Categorizer.AsWrittenFreshInstanceChanged | Categorizer.AddCustomMappingIsolated, Categorizer.IsolatedRuleDoesNotLeak |
