/**
 * The pure parts of the Ascension database scraper (ascension_scraper.py):
 * the item record and its dict form, cache file names, the id extraction
 * of a list page, the limit on scrape results, and the group paths for
 * weapon and armor types. Fetching pages and reading or writing cache
 * files are parameters and outcomes here.
 */
module AscensionScraper {
  import opened Wrappers
  import opened Strings
  import opened Dict
  import opened LuaScan
  import opened BatchImport

  // ---------------------------------------------------------------------------
  // AscensionItem and to_dict
  // ---------------------------------------------------------------------------

  datatype AscensionItem = AscensionItem(id: int, name: string, itemClass: string, itemSubclass: string, slot: string, quality: int)

  /** A JSON value as the cache holds it: a number or a string. */
  datatype Json = JInt(i: int) | JStr(s: string)

  const FieldNames: set<string> := {"id", "name", "item_class", "item_subclass", "slot", "quality"}

  /** `to_dict`: one entry per field, in declaration order. */
  function ToDict(item: AscensionItem): (d: Dict<string, Json>)
    ensures UniqueKeys(d) && |d| == 6
    ensures Keys(d) == FieldNames
  {
    var d := [("id", JInt(item.id)), ("name", JStr(item.name)), ("item_class", JStr(item.itemClass)),
              ("item_subclass", JStr(item.itemSubclass)), ("slot", JStr(item.slot)), ("quality", JInt(item.quality))];
    assert d[0].0 == "id" && d[1].0 == "name" && d[2].0 == "item_class" && d[3].0 == "item_subclass"
      && d[4].0 == "slot" && d[5].0 == "quality";
    d
  }

  function IntField(d: Dict<string, Json>, k: string, default: int): Result<int, string>
  {
    var v: Option<Json> := Get(d, k);
    if v.None? then Success(default)
    else if v.value.JInt? then Success(v.value.i)
    else Failure("field " + k + " is not a number")
  }

  function StrField(d: Dict<string, Json>, k: string, default: string): Result<string, string>
  {
    var v: Option<Json> := Get(d, k);
    if v.None? then Success(default)
    else if v.value.JStr? then Success(v.value.s)
    else Failure("field " + k + " is not a string")
  }

  /**
   * `AscensionItem(**d)`: an unknown key or a missing `id` or `name` is an
   * error; the other fields take their declared defaults when absent.
   */
  function FromDict(d: Dict<string, Json>): (r: Result<AscensionItem, string>)
    ensures r.Success? ==> Keys(d) <= FieldNames && "id" in Keys(d) && "name" in Keys(d)
    ensures r.Success? ==> Get(d, "id") == Some(JInt(r.value.id)) && Get(d, "name") == Some(JStr(r.value.name))
    ensures r.Success? ==> Get(d, "item_class").GetOr(JStr("")) == JStr(r.value.itemClass)
    ensures r.Success? ==> Get(d, "item_subclass").GetOr(JStr("")) == JStr(r.value.itemSubclass)
    ensures r.Success? ==> Get(d, "slot").GetOr(JStr("")) == JStr(r.value.slot)
    ensures r.Success? ==> Get(d, "quality").GetOr(JInt(0)) == JInt(r.value.quality)
  {
    if !(Keys(d) <= FieldNames) then Failure("unexpected keyword argument")
    else if "id" !in Keys(d) || "name" !in Keys(d) then Failure("missing required argument")
    else
      var id := IntField(d, "id", 0);
      var name := StrField(d, "name", "");
      var itemClass := StrField(d, "item_class", "");
      var itemSubclass := StrField(d, "item_subclass", "");
      var slot := StrField(d, "slot", "");
      var quality := IntField(d, "quality", 0);
      if id.Failure? || name.Failure? || itemClass.Failure? || itemSubclass.Failure? || slot.Failure? || quality.Failure? then
        Failure("field of the wrong type")
      else
        Success(AscensionItem(id.value, name.value, itemClass.value, itemSubclass.value, slot.value, quality.value))
  }

  /** Each field of `to_dict` is looked up under its own name. */
  lemma ToDictFields(item: AscensionItem)
    ensures Get(ToDict(item), "id") == Some(JInt(item.id))
    ensures Get(ToDict(item), "name") == Some(JStr(item.name))
    ensures Get(ToDict(item), "item_class") == Some(JStr(item.itemClass))
    ensures Get(ToDict(item), "item_subclass") == Some(JStr(item.itemSubclass))
    ensures Get(ToDict(item), "slot") == Some(JStr(item.slot))
    ensures Get(ToDict(item), "quality") == Some(JInt(item.quality))
  {
    var d := ToDict(item);
    assert d[0] == ("id", JInt(item.id)) && d[1] == ("name", JStr(item.name));
    assert d[2] == ("item_class", JStr(item.itemClass)) && d[3] == ("item_subclass", JStr(item.itemSubclass));
    assert d[4] == ("slot", JStr(item.slot)) && d[5] == ("quality", JInt(item.quality));
    GetAt(d, 0); GetAt(d, 1); GetAt(d, 2); GetAt(d, 3); GetAt(d, 4); GetAt(d, 5);
  }

  /** Rebuilding an item from its dict gives the item back: the round trip the item cache relies on. */
  lemma FromDictToDict(item: AscensionItem)
    ensures FromDict(ToDict(item)) == Success(item)
  {
    ToDictFields(item);
  }

  /** Every entry of a dict that rebuilds into an item is reproduced by that item's `to_dict`. */
  lemma ToDictKeepsEntries(d: Dict<string, Json>, k: string)
    requires FromDict(d).Success? && k in Keys(d)
    ensures Get(ToDict(FromDict(d).value), k) == Get(d, k)
  {
    ToDictFields(FromDict(d).value);
    assert k in FieldNames;
  }

  // ---------------------------------------------------------------------------
  // Cache file names
  // ---------------------------------------------------------------------------

  /** A character `[\w\-]` keeps in a cache key. */
  predicate IsKeyChar(c: char)
  {
    IsWordChar(c) || c == '-'
  }

  /** `re.sub(r'[^\w\-]', '_', key)`: every other character becomes an underscore. */
  function SanitizeKey(key: string): (r: string)
    ensures |r| == |key|
    ensures forall i :: 0 <= i < |r| ==> IsKeyChar(r[i])
    ensures forall i :: 0 <= i < |key| && IsKeyChar(key[i]) ==> r[i] == key[i]
    ensures forall i :: 0 <= i < |key| && !IsKeyChar(key[i]) ==> r[i] == '_'
  {
    seq(|key|, i requires 0 <= i < |key| => if IsKeyChar(key[i]) then key[i] else '_')
  }

  /** Sanitizing twice is sanitizing once, and a key made of kept characters is its own sanitized form. */
  lemma SanitizeKeyIdempotent(key: string)
    ensures SanitizeKey(SanitizeKey(key)) == SanitizeKey(key)
    ensures (forall i :: 0 <= i < |key| ==> IsKeyChar(key[i])) ==> SanitizeKey(key) == key
  {
  }

  /** The file name `_get_cache_path` gives a cache key, inside the cache directory. */
  function CacheFileName(key: string): (r: string)
    ensures |r| == |key| + 15
    ensures r[..10] == "ascension_" && r[|r| - 5..] == ".json"
    ensures r[10..|r| - 5] == SanitizeKey(key)
  {
    "ascension_" + SanitizeKey(key) + ".json"
  }

  /** Two keys share a cache file exactly when they sanitize to the same text. */
  lemma CacheFileNameInjective(a: string, b: string)
    ensures CacheFileName(a) == CacheFileName(b) <==> SanitizeKey(a) == SanitizeKey(b)
  {
    if CacheFileName(a) == CacheFileName(b) {
      assert SanitizeKey(a) == CacheFileName(a)[10..|CacheFileName(a)| - 5];
    }
  }

  /**
   * Keys that differ only in characters outside `[\w\-]` share one cache file,
   * for instance a space and an underscore in the same place.
   */
  lemma CacheFileNameCollides(a: string, b: string)
    requires |a| == |b|
    requires forall i :: 0 <= i < |a| ==> a[i] == b[i] || (!IsKeyChar(a[i]) && !IsKeyChar(b[i]))
    ensures CacheFileName(a) == CacheFileName(b)
    ensures CacheFileName("armor_cloth_head piece") == CacheFileName("armor_cloth_head_piece")
  {
    assert SanitizeKey(a) == SanitizeKey(b);
    assert SanitizeKey("armor_cloth_head piece") == "armor_cloth_head_piece";
    assert SanitizeKey("armor_cloth_head_piece") == "armor_cloth_head_piece";
  }

  // ---------------------------------------------------------------------------
  // Id extraction of a list page
  // ---------------------------------------------------------------------------

  /** The two patterns a list page is searched with: `\?item=(\d+)` and `"id"\s*:\s*(\d+)`. */
  datatype IdPattern = ItemLink | ListviewId

  /** `s[p + 4..d]` is the `\s*:\s*` of the listview pattern, maximal, so the digits begin at `d`. */
  predicate ListviewSpan(s: string, p: nat, d: nat)
    requires p + 4 <= d <= |s|
  {
    && (exists c :: p + 4 <= c < d && AllSpaces(s, p + 4, c) && s[c] == ':' && AllSpaces(s, c + 1, d))
    && (d == |s| || !IsSpace(s[d]))
  }

  /** `s[p..d]` is what the pattern requires before its digits: `?item=`, or `"id"` and then a whole `\s*:\s*`. */
  predicate PrefixSpan(pattern: IdPattern, s: string, p: nat, d: nat)
  {
    match pattern
    case ItemLink => OccursAt(s, "?item=", p) && d == p + 6
    case ListviewId => OccursAt(s, "\"id\"", p) && p + 4 < d <= |s| && ListviewSpan(s, p, d)
  }

  /** Where the digits of a match of the pattern at `p` must begin, or -1 when the text before them does not match. */
  function DigitsStart(pattern: IdPattern, s: string, p: nat): (d: int)
    requires p <= |s|
    ensures d == -1 || p < d <= |s|
    ensures d != -1 ==> PrefixSpan(pattern, s, p, d)
  {
    match pattern
    case ItemLink => if OccursAt(s, "?item=", p) then p + 6 else -1
    case ListviewId =>
      if !OccursAt(s, "\"id\"", p) then -1
      else
        var colon := SkipSpaces(s, p + 4);
        if colon < |s| && s[colon] == ':' then
          var d := SkipSpaces(s, colon + 1);
          assert AllSpaces(s, p + 4, colon) && AllSpaces(s, colon + 1, d);
          d
        else -1
  }

  /** A match of the pattern at `p` whose digits are `s[d..e]`, a maximal run. */
  predicate IdMatch(pattern: IdPattern, s: string, p: int, d: int, e: int)
  {
    0 <= p <= |s| && 0 <= d < e <= |s| && PrefixSpan(pattern, s, p, d) && AllDigits(s[d..e])
    && (e == |s| || !IsDigit(s[e]))
  }

  /** The scan finds the prefix of a match exactly where there is one, and its end is unique. */
  lemma DigitsStartExact(pattern: IdPattern, s: string, p: nat, d: nat)
    requires p <= |s|
    ensures DigitsStart(pattern, s, p) == d <==> PrefixSpan(pattern, s, p, d)
  {
    if pattern.ListviewId? && PrefixSpan(pattern, s, p, d) {
      var c :| p + 4 <= c < d && AllSpaces(s, p + 4, c) && s[c] == ':' && AllSpaces(s, c + 1, d);
      assert !IsSpace(':');
      SkipSpacesAt(s, p + 4, c);
      if d < |s| {
        SkipSpacesAt(s, c + 1, d);
      } else {
        SkipSpacesToEnd(s, c + 1);
      }
    }
  }

  /** Spaces up to the end of the text are skipped to the end. */
  lemma {:induction false} SkipSpacesToEnd(s: string, i: nat)
    requires i <= |s| && AllSpaces(s, i, |s|)
    ensures SkipSpaces(s, i) == |s|
    decreases |s| - i
  {
    if i < |s| {
      SkipSpacesToEnd(s, i + 1);
    }
  }

  /** A run of digits where the pattern's digits must begin, taken whole, is a match. */
  lemma DigitRunMatches(pattern: IdPattern, s: string, p: nat, d: int, e: nat)
    requires p <= |s| && d == DigitsStart(pattern, s, p) && 0 <= d < |s| && IsDigit(s[d]) && e == DigitsEnd(s, d)
    ensures IdMatch(pattern, s, p, d, e)
  {
    assert forall k :: 0 <= k < e - d ==> s[d..e][k] == s[d + k];
  }

  /** `re.findall` of the pattern from position `i`, as (start, digits start, digits end) of each match. */
  function FindAllIdMatches(pattern: IdPattern, s: string, i: nat): (r: seq<(nat, nat, nat)>)
    requires i <= |s|
    ensures forall k :: 0 <= k < |r| ==> i <= r[k].0 && IdMatch(pattern, s, r[k].0, r[k].1, r[k].2)
    ensures forall k :: 0 <= k < |r| - 1 ==> r[k].2 <= r[k + 1].0
    decreases |s| - i
  {
    if i == |s| then []
    else
      var d := DigitsStart(pattern, s, i);
      if d != -1 && d < |s| && IsDigit(s[d]) then
        var e := DigitsEnd(s, d);
        DigitRunMatches(pattern, s, i, d, e);
        [(i, d, e)] + FindAllIdMatches(pattern, s, e)
      else FindAllIdMatches(pattern, s, i + 1)
  }

  /** `int(match)` for every match of the pattern, in text order. */
  function FindAllIds(pattern: IdPattern, s: string): seq<nat>
  {
    var ms := FindAllIdMatches(pattern, s, 0);
    seq(|ms|, k requires 0 <= k < |ms| => DigitsValue(s[ms[k].1..ms[k].2]))
  }

  /** The listview ids the page loop accepts: only those above 100. */
  function LargeIds(xs: seq<nat>): (r: seq<nat>)
    ensures forall x :: x in r <==> x in xs && x > 100
  {
    if |xs| == 0 then []
    else
      var last := xs[|xs| - 1];
      assert forall y :: y in xs <==> y in xs[..|xs| - 1] || y == last;
      LargeIds(xs[..|xs| - 1]) + (if last > 100 then [last] else [])
  }

  /** The ids of a list's prefix keep their places when more ids follow. */
  lemma {:induction false} DedupPrefix(xs: seq<nat>, ys: seq<nat>)
    ensures |Dedup(xs)| <= |Dedup(xs + ys)| && Dedup(xs + ys)[..|Dedup(xs)|] == Dedup(xs)
    decreases |ys|
  {
    if |ys| == 0 {
      assert xs + ys == xs;
    } else {
      var init := ys[..|ys| - 1];
      DedupPrefix(xs, init);
      assert (xs + ys)[..|xs + ys| - 1] == xs + init;
    }
  }

  /** One more value extends the deduplicated list exactly when it is new. */
  lemma DedupSnoc(xs: seq<nat>, x: nat)
    ensures Dedup(xs + [x]) == if x in Dedup(xs) then Dedup(xs) else Dedup(xs) + [x]
  {
    assert (xs + [x])[..|xs|] == xs;
  }

  lemma LargeIdsSnoc(xs: seq<nat>, j: nat)
    requires j < |xs|
    ensures LargeIds(xs[..j + 1]) == LargeIds(xs[..j]) + (if xs[j] > 100 then [xs[j]] else [])
  {
    assert xs[..j + 1][..j] == xs[..j];
  }

  /** The first loop of `scrape_item_ids_from_page`: each link id once, in order, with the set of ids seen. */
  method CollectLinkIds(links: seq<nat>) returns (ids: seq<nat>, seen: set<nat>)
    ensures ids == Dedup(links)
    ensures forall x :: x in seen <==> x in ids
  {
    ids := [];
    seen := {};
    var i := 0;
    while i < |links|
      invariant 0 <= i <= |links|
      invariant ids == Dedup(links[..i])
      invariant forall x :: x in seen <==> x in ids
    {
      assert links[..i + 1] == links[..i] + [links[i]];
      DedupSnoc(links[..i], links[i]);
      if links[i] !in seen {
        seen := seen + {links[i]};
        ids := ids + [links[i]];
      }
      i := i + 1;
    }
    assert links[..i] == links;
  }

  /** The second loop: a listview id is appended when it is above 100 and not seen yet. */
  method AppendListviewIds(links: seq<nat>, data: seq<nat>, ids0: seq<nat>, seen0: set<nat>) returns (ids: seq<nat>)
    requires ids0 == Dedup(links)
    requires forall x :: x in seen0 <==> x in ids0
    ensures ids == Dedup(links + LargeIds(data))
  {
    ids := ids0;
    var seen := seen0;
    assert links + LargeIds(data[..0]) == links;
    var j := 0;
    while j < |data|
      invariant 0 <= j <= |data|
      invariant ids == Dedup(links + LargeIds(data[..j]))
      invariant forall x :: x in seen <==> x in ids
    {
      LargeIdsSnoc(data, j);
      if data[j] > 100 {
        assert links + LargeIds(data[..j + 1]) == (links + LargeIds(data[..j])) + [data[j]];
        DedupSnoc(links + LargeIds(data[..j]), data[j]);
        if data[j] !in seen {
          seen := seen + {data[j]};
          ids := ids + [data[j]];
        }
      } else {
        assert links + LargeIds(data[..j + 1]) == links + LargeIds(data[..j]);
      }
      j := j + 1;
    }
    assert data[..j] == data;
  }

  /**
   * The accumulation loops of `scrape_item_ids_from_page`: link ids in order,
   * each once, then the listview ids that are above 100 and not seen yet.
   */
  method CollectItemIds(links: seq<nat>, data: seq<nat>) returns (ids: seq<nat>)
    ensures ids == Dedup(links + LargeIds(data))
    ensures forall a, b :: 0 <= a < b < |ids| ==> ids[a] != ids[b]
    ensures |Dedup(links)| <= |ids| && ids[..|Dedup(links)|] == Dedup(links)
    ensures forall x :: x in ids <==> x in links || (x in data && x > 100)
  {
    var linkIds, seen := CollectLinkIds(links);
    ids := AppendListviewIds(links, data, linkIds, seen);
    DedupPrefix(links, LargeIds(data));
  }

  /** The ids `scrape_item_ids_from_page` returns for a page; `None` stands for a failed request. */
  function PageItemIds(page: Option<string>): (r: seq<nat>)
    ensures forall a, b :: 0 <= a < b < |r| ==> r[a] != r[b]
    ensures page.None? ==> r == []
  {
    match page
    case None => []
    case Some(text) => Dedup(FindAllIds(ItemLink, text) + LargeIds(FindAllIds(ListviewId, text)))
  }

  // ---------------------------------------------------------------------------
  // scrape_weapons and scrape_armor
  // ---------------------------------------------------------------------------

  /** Python's `xs[:limit]`; a negative limit counts from the end. */
  function Take<T>(xs: seq<T>, limit: int): (r: seq<T>)
    ensures |r| <= |xs| && r == xs[..|r|]
    ensures limit >= 0 ==> |r| == if limit < |xs| then limit else |xs|
    ensures limit < 0 ==> |r| == if |xs| + limit > 0 then |xs| + limit else 0
  {
    if limit >= 0 then (if limit < |xs| then xs[..limit] else xs)
    else if |xs| + limit > 0 then xs[..|xs| + limit] else []
  }

  const BaseUrl: string := "https://db.ascension.gg"
  const ClassWeapon: nat := 2
  const ClassArmor: nat := 4

  /** `WEAPON_SUBCLASSES`. */
  const WeaponSubclasses: Dict<string, nat> := [
    ("axe_1h", 0), ("axe_2h", 1), ("bow", 2), ("gun", 3), ("mace_1h", 4), ("mace_2h", 5), ("polearm", 6),
    ("sword_1h", 7), ("sword_2h", 8), ("staff", 10), ("fist", 13), ("dagger", 15), ("thrown", 16),
    ("crossbow", 18), ("wand", 19), ("fishing_pole", 20)]

  /** `ARMOR_SUBCLASSES`. */
  const ArmorSubclasses: Dict<string, nat> := [
    ("misc", 0), ("cloth", 1), ("leather", 2), ("mail", 3), ("plate", 4), ("shield", 6)]

  /** What one scrape call did: the ids returned, the page fetched if any, and the cache file written if any. */
  datatype ScrapeOutcome = ScrapeOutcome(ids: seq<nat>, fetched: Option<string>, saved: Option<(string, seq<nat>)>)

  /**
   * The shared body of `scrape_weapons` and `scrape_armor` once the subclass
   * is known: a non-empty cached dict answers without a fetch; otherwise the
   * page is scraped and the full id list is cached before the limit applies.
   */
  function ScrapeCategory(classId: nat, subclass: nat, cacheKey: string, limit: int,
                          cached: Option<Dict<string, seq<nat>>>, page: Option<string>): (r: ScrapeOutcome)
    ensures limit >= 0 ==> |r.ids| <= limit
    ensures cached.Some? && |cached.value| > 0 ==>
      r.fetched.None? && r.saved.None? && r.ids == Take(Get(cached.value, "item_ids").GetOr([]), limit)
    ensures !(cached.Some? && |cached.value| > 0) ==>
      && r.fetched == Some(BaseUrl + "/?items=" + NatToString(classId) + "." + NatToString(subclass))
      && r.saved.Some? && r.saved.value.0 == CacheFileName(cacheKey)
      && r.saved.value.1 == PageItemIds(page)
      && r.ids == Take(PageItemIds(page), limit)
  {
    if cached.Some? && |cached.value| > 0 then
      ScrapeOutcome(Take(Get(cached.value, "item_ids").GetOr([]), limit), None, None)
    else
      var ids := PageItemIds(page);
      ScrapeOutcome(Take(ids, limit), Some(BaseUrl + "/?items=" + NatToString(classId) + "." + NatToString(subclass)),
                    Some((CacheFileName(cacheKey), ids)))
  }

  /** `scrape_weapons`: an unknown weapon type returns nothing and touches neither the site nor the cache. */
  function ScrapeWeapons(weaponType: string, limit: int, cached: Option<Dict<string, seq<nat>>>, page: Option<string>): (r: ScrapeOutcome)
    ensures Lower(weaponType) !in Keys(WeaponSubclasses) ==> r == ScrapeOutcome([], None, None)
    ensures Lower(weaponType) in Keys(WeaponSubclasses) ==>
      r == ScrapeCategory(ClassWeapon, Get(WeaponSubclasses, Lower(weaponType)).value, "weapon_" + weaponType, limit, cached, page)
    ensures limit >= 0 ==> |r.ids| <= limit
  {
    match Get(WeaponSubclasses, Lower(weaponType))
    case None => ScrapeOutcome([], None, None)
    case Some(subclass) => ScrapeCategory(ClassWeapon, subclass, "weapon_" + weaponType, limit, cached, page)
  }

  /** The cache key of an armor scrape: the type, then the slot when one is given. */
  function ArmorCacheKey(armorType: string, slot: string): string
  {
    "armor_" + armorType + (if slot != "" then "_" + slot else "")
  }

  /**
   * `scrape_armor`. The slot only names the cache entry: the page fetched is
   * the same for every slot.
   */
  function ScrapeArmor(armorType: string, slot: string, limit: int, cached: Option<Dict<string, seq<nat>>>, page: Option<string>): (r: ScrapeOutcome)
    ensures Lower(armorType) !in Keys(ArmorSubclasses) ==> r == ScrapeOutcome([], None, None)
    ensures Lower(armorType) in Keys(ArmorSubclasses) ==>
      r == ScrapeCategory(ClassArmor, Get(ArmorSubclasses, Lower(armorType)).value, ArmorCacheKey(armorType, slot), limit, cached, page)
    ensures limit >= 0 ==> |r.ids| <= limit
  {
    match Get(ArmorSubclasses, Lower(armorType))
    case None => ScrapeOutcome([], None, None)
    case Some(subclass) => ScrapeCategory(ClassArmor, subclass, ArmorCacheKey(armorType, slot), limit, cached, page)
  }

  /**
   * A second scrape that finds the cache entry the first one wrote returns the
   * same ids without fetching anything.
   */
  lemma ScrapeCacheRoundTrip(classId: nat, subclass: nat, cacheKey: string, limit: int,
                             page: Option<string>, page': Option<string>)
    ensures var first := ScrapeCategory(classId, subclass, cacheKey, limit, None, page);
      var second := ScrapeCategory(classId, subclass, cacheKey, limit, Some([("item_ids", first.saved.value.1)]), page');
      second.ids == first.ids && second.fetched.None?
  {
  }

  // ---------------------------------------------------------------------------
  // Group paths for weapon and armor types
  // ---------------------------------------------------------------------------

  /** `WEAPON_TO_GROUP`. */
  const WeaponToGroup: Dict<string, string> := [
    ("axe_1h", "Transmog`Axes`One Hand"), ("axe_2h", "Transmog`Axes`Two Hand"), ("bow", "Transmog`Bows"),
    ("gun", "Transmog`Guns"), ("mace_1h", "Transmog`Maces`One Hand"), ("mace_2h", "Transmog`Maces`Two Hand"),
    ("polearm", "Transmog`Polearms"), ("sword_1h", "Transmog`Swords`One Hand"), ("sword_2h", "Transmog`Swords`Two Hand"),
    ("staff", "Transmog`Staves"), ("fist", "Transmog`Fist"), ("dagger", "Transmog`Daggers"), ("thrown", "Transmog`Throwing"),
    ("crossbow", "Transmog`Crossbow"), ("wand", "Transmog`Wands"), ("fishing_pole", "Tradeskills`Fishing`Rods")]

  const OtherWeaponGroup: string := "Transmog`Other"

  /** `get_tsm_group_for_weapon`: the table entry of the lower-cased type, or the catch-all group. */
  function GroupForWeapon(weaponType: string): (r: string)
    ensures Lower(weaponType) in Keys(WeaponToGroup) ==> Some(r) == Get(WeaponToGroup, Lower(weaponType))
    ensures Lower(weaponType) !in Keys(WeaponToGroup) ==> r == OtherWeaponGroup
  {
    Get(WeaponToGroup, Lower(weaponType)).GetOr(OtherWeaponGroup)
  }

  /** The lookup ignores case. */
  lemma GroupForWeaponIgnoresCase(weaponType: string)
    ensures GroupForWeapon(weaponType) == GroupForWeapon(Lower(weaponType))
  {
    LowerIdempotent(weaponType);
  }

  /** Every weapon type the scraper can fetch has a group of its own. */
  lemma ScrapableWeaponsHaveGroups()
    ensures Keys(WeaponSubclasses) == Keys(WeaponToGroup)
  {
    assert forall i :: 0 <= i < |WeaponSubclasses| ==> WeaponSubclasses[i].0 == WeaponToGroup[i].0;
  }

  lemma CapitalizeKeepsSeparatorOut(s: string)
    requires '`' !in s
    ensures '`' !in Capitalize(s)
  {
    forall i | 0 <= i < |s| ensures Capitalize(s)[i] != '`' {
      assert s[i] != '`';
    }
  }

  /** `get_tsm_group_for_armor`: the type and the slot, each capitalized, under `Transmog`. */
  function GroupForArmor(armorType: string, slot: string): (r: string)
    ensures r == Join(["Transmog", Capitalize(armorType), Capitalize(slot)], '`')
  {
    var parts := ["Transmog", Capitalize(armorType), Capitalize(slot)];
    assert parts[..2] == ["Transmog", Capitalize(armorType)];
    assert parts[..2][..1] == ["Transmog"];
    assert Join(parts[..2], '`') == "Transmog" + "`" + Capitalize(armorType);
    "Transmog`" + Capitalize(armorType) + "`" + Capitalize(slot)
  }

  /** When neither argument holds a backtick, the armor group path has exactly three segments. */
  lemma GroupForArmorSegments(armorType: string, slot: string)
    requires '`' !in armorType && '`' !in slot
    ensures Split(GroupForArmor(armorType, slot), '`') == ["Transmog", Capitalize(armorType), Capitalize(slot)]
  {
    CapitalizeKeepsSeparatorOut(armorType);
    CapitalizeKeepsSeparatorOut(slot);
    SplitJoin(["Transmog", Capitalize(armorType), Capitalize(slot)], '`');
  }
}
