/**
 * `TSMLuaParser.parse_groups`: the brace walk that bounds the `["groups"]`
 * section of an Ascension file, and the group names read from it and from the
 * whole text.
 */
module GroupSection {
  import opened Wrappers
  import opened Strings
  import opened LuaScan
  import opened LuaParser

  /**
   * The brace depth after the characters `s[b + 1..i]` have been read, when the
   * opening brace at `b` counts as depth 1.
   */
  function Depth(s: string, b: nat, i: nat): int
    requires b < i <= |s|
  {
    1 + Count(s[b + 1..i], '{') - Count(s[b + 1..i], '}')
  }

  lemma DepthStep(s: string, b: nat, i: nat)
    requires b < i < |s|
    ensures Depth(s, b, i + 1) == Depth(s, b, i) + (if s[i] == '{' then 1 else if s[i] == '}' then -1 else 0)
  {
    assert s[b + 1..i + 1][..i - b - 1] == s[b + 1..i];
  }

  /** The loop of `parse_groups`: read characters while text remains and the depth is positive. */
  function Walk(s: string, b: nat, pos: nat, depth: int): (e: nat)
    requires b < pos <= |s|
    requires depth == Depth(s, b, pos) && depth >= 0
    requires forall i :: b < i < pos ==> Depth(s, b, i) > 0
    ensures pos <= e <= |s|
    ensures forall i :: b < i < e ==> Depth(s, b, i) > 0
    ensures Depth(s, b, e) == 0 || (e == |s| && Depth(s, b, e) > 0)
    decreases |s| - pos
  {
    if pos < |s| && depth > 0 then
      DepthStep(s, b, pos);
      Walk(s, b, pos + 1, depth + (if s[pos] == '{' then 1 else if s[pos] == '}' then -1 else 0))
    else pos
  }

  /**
   * Where the brace walk from the `{` at `b` stops: the first position where the
   * depth is back to 0, or the end of the text when the braces never balance.
   */
  function SectionEnd(s: string, b: nat): (e: nat)
    requires b < |s|
    ensures b < e <= |s|
    ensures forall i :: b < i < e ==> Depth(s, b, i) > 0
    ensures Depth(s, b, e) != 0 ==> e == |s|
  {
    assert s[b + 1..b + 1] == [];
    Walk(s, b, b + 1, 1)
  }

  /** When the walk closes, the section between the braces holds as many `{` as `}`. */
  lemma SectionBalanced(s: string, b: nat)
    requires b < |s|
    requires Depth(s, b, SectionEnd(s, b)) == 0
    ensures b + 1 < SectionEnd(s, b) && s[SectionEnd(s, b) - 1] == '}'
    ensures Count(s[b + 1..SectionEnd(s, b) - 1], '{') == Count(s[b + 1..SectionEnd(s, b) - 1], '}')
  {
    var e := SectionEnd(s, b);
    assert s[b + 1..b + 1] == [];
    assert e != b + 1;
    DepthStep(s, b, e - 1);
  }

  /** The operation tables that share the groups section and are not groups. */
  const OperationNames: set<string> := {"Mailing", "Auctioning", "Crafting", "Shopping", "Warehousing", "Vendoring"}

  const GroupsMarker: string := "[\"groups\"] = {"

  /** The text between the braces that the walk found, as Python's `content[b + 1:e - 1]` slices it. */
  function SectionText(s: string, b: nat): (t: string)
    requires b < |s|
  {
    var e := SectionEnd(s, b);
    if b + 1 <= e - 1 then s[b + 1..e - 1] else []
  }

  /**
   * The marker holds one `{`, its last character, so the first `{` found from
   * wherever the marker occurs is the marker's own.
   */
  lemma MarkerHoldsBrace(content: string, start: nat)
    requires OccursAt(content, GroupsMarker, start)
    ensures Find(content, "{", start) == start + |GroupsMarker| - 1
  {
    assert content[start..start + |GroupsMarker|] == GroupsMarker;
    assert forall j :: start <= j < start + |GroupsMarker| ==> content[j] == GroupsMarker[j - start];
    var b := start + |GroupsMarker| - 1;
    assert OccursAt(content, "{", b);
    assert GroupsMarker[..|GroupsMarker| - 1] == "[\"groups\"] = ";
    assert '{' !in GroupsMarker[..|GroupsMarker| - 1];
    forall j | start <= j < b
      ensures !OccursAt(content, "{", j)
    {
      assert content[j..j + 1][0] == GroupsMarker[..|GroupsMarker| - 1][j - start];
    }
  }

  /**
   * The text of the `["groups"]` section of an Ascension file: what lies between
   * the first `{` at or after the marker and the brace that closes it. There is
   * none without `AscensionTSMDB` or without the marker; the search for `{`
   * never fails, since the marker itself ends in one.
   */
  function GroupsSection(content: string): (r: Option<string>)
    ensures r.None? <==> !Contains(content, "AscensionTSMDB") || Find(content, GroupsMarker, 0) == -1
    ensures r.Some? ==>
      var m := Find(content, GroupsMarker, 0);
      0 <= m && m + |GroupsMarker| <= |content| && r.value == SectionText(content, m + |GroupsMarker| - 1)
  {
    if !Contains(content, "AscensionTSMDB") then None
    else
      var start := Find(content, GroupsMarker, 0);
      if start == -1 then None
      else
        MarkerHoldsBrace(content, start);
        var b := Find(content, "{", start);
        if b == -1 then None
        else Some(SectionText(content, b))
  }

  /**
   * The groups read from the `["groups"]` section: every `["name"] = {` key the
   * scan of the section finds, except the operation tables.
   */
  function SectionGroups(content: string): (r: set<string>)
    ensures forall g :: g in r ==> g !in OperationNames
    ensures GroupsSection(content).None? ==> r == {}
    ensures GroupsSection(content).Some? ==> forall g :: g in r ==> IsTableKeyIn(GroupsSection(content).value, g)
  {
    match GroupsSection(content)
    case None => {}
    case Some(t) =>
      var names := FindAllTableKeys(t, false, 0);
      FindAllTableKeysIn(t, false);
      set i | 0 <= i < |names| && names[i] !in OperationNames :: names[i]
  }

  /** The first key in the section that is not an operation table is a group. */
  lemma SectionGroupsFirst(content: string, q: nat, g: string, e: nat)
    requires GroupsSection(content).Some?
    requires TableKeySpan(GroupsSection(content).value, q, g, e) && g !in OperationNames
    requires forall q': nat :: q' < q ==> !TableKeyMatchAt(GroupsSection(content).value, q', false)
    ensures g in SectionGroups(content)
  {
    var t := GroupsSection(content).value;
    FindAllTableKeysFirst(t, false, 0, q, g, e);
    assert FindAllTableKeys(t, false, 0)[0] == g;
  }

  /**
   * Group definitions anywhere in the text whose name holds a backtick:
   * `["A`B"] = {`. There are none exactly when that pattern matches nowhere.
   */
  function BacktickGroups(content: string): (r: set<string>)
    ensures forall g :: g in r ==> HasInnerBacktick(g) && IsTableKeyIn(content, g)
    ensures r == {} <==> forall q: nat :: q <= |content| ==> !TableKeyMatchAt(content, q, true)
  {
    var names := FindAllTableKeys(content, true, 0);
    FindAllTableKeysIn(content, true);
    FindAllTableKeysEmpty(content, true, 0);
    var r := set i | 0 <= i < |names| :: names[i];
    assert names != [] ==> names[0] in r;
    r
  }

  /** The first backtick definition in the text is a group. */
  lemma BacktickGroupsFirst(content: string, q: nat, g: string, e: nat)
    requires TableKeySpan(content, q, g, e) && HasInnerBacktick(g)
    requires forall q': nat :: q' < q ==> !TableKeyMatchAt(content, q', true)
    ensures g in BacktickGroups(content)
  {
    FindAllTableKeysFirst(content, true, 0, q, g, e);
    assert FindAllTableKeys(content, true, 0)[0] == g;
  }

  /** No operation-table name holds a backtick. */
  lemma OperationNamesPlain(g: string)
    requires g in OperationNames
    ensures !HasInnerBacktick(g)
  {
    assert '`' !in g;
  }

  /**
   * `parse_groups`: the section groups and the backtick groups are added to the
   * group set; neither source ever contributes an operation-table name.
   */
  function ParseGroups(st: ParseState, content: string): (r: ParseState)
    ensures r.items == ItemsFirst(st, content).items
    ensures st.groups <= r.groups
    ensures ItemsFirst(st, content).groups <= r.groups
    ensures SectionGroups(content) + BacktickGroups(content) <= r.groups
    ensures r.groups <= ItemsFirst(st, content).groups + SectionGroups(content) + BacktickGroups(content)
    ensures forall g :: g in r.groups - ItemsFirst(st, content).groups ==> g !in OperationNames
  {
    var base := ItemsFirst(st, content);
    var added := SectionGroups(content) + BacktickGroups(content);
    assert forall g :: g in added ==> g !in OperationNames by {
      forall g | g in BacktickGroups(content) ensures g !in OperationNames {
        if g in OperationNames { OperationNamesPlain(g); }
      }
    }
    ParseState(base.items, base.groups + added)
  }

  /** The parser state `get_group_hierarchy` builds on: the groups are parsed first when none are known. */
  function GroupsFirst(st: ParseState, content: string): ParseState
  {
    if |st.groups| == 0 then ParseGroups(st, content) else st
  }
}
