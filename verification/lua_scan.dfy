/**
 * Hand-written scanners for the regular expressions `TSMLuaParser` runs over
 * the saved-variables text. Each `...At` function decides whether the pattern
 * matches at one position; each `FindAll...` function is `re.findall`: it tries
 * every position left to right and resumes after the end of each match.
 */
module LuaScan {
  import opened Wrappers
  import opened Strings
  import opened ItemKeys

  /** The end of a run of whitespace starting at `i` (`\s*`). */
  function SkipSpaces(s: string, i: nat): (j: nat)
    requires i <= |s|
    ensures i <= j <= |s|
    ensures forall k :: i <= k < j ==> IsSpace(s[k])
    ensures j == |s| || !IsSpace(s[j])
    decreases |s| - i
  {
    if i == |s| || !IsSpace(s[i]) then i else SkipSpaces(s, i + 1)
  }

  /** The first `"` at or after `i`, or `|s|` when there is none. */
  function NextQuote(s: string, i: nat): (j: nat)
    requires i <= |s|
    ensures i <= j <= |s|
    ensures forall k :: i <= k < j ==> s[k] != '"'
    ensures j == |s| || s[j] == '"'
    decreases |s| - i
  {
    if i == |s| || s[i] == '"' then i else NextQuote(s, i + 1)
  }

  /** The end of a run of digits and colons starting at `i` (`[\d:]*`). */
  function DigitColonEnd(s: string, i: nat): (j: nat)
    requires i <= |s|
    ensures i <= j <= |s|
    ensures forall k :: i <= k < j ==> IsDigit(s[k]) || s[k] == ':'
    ensures j == |s| || !(IsDigit(s[j]) || s[j] == ':')
    decreases |s| - i
  {
    if i == |s| || !(IsDigit(s[i]) || s[i] == ':') then i else DigitColonEnd(s, i + 1)
  }

  /** Every character of `s[a..b]` is whitespace. */
  predicate AllSpaces(s: string, a: nat, b: nat)
    requires a <= b <= |s|
  {
    forall k :: a <= k < b ==> IsSpace(s[k])
  }

  /** `s[i..t]` is exactly `\s*=\s*` followed by the character `open`. */
  predicate AssignmentSpan(s: string, i: nat, t: nat, open: char)
  {
    && i + 1 < t <= |s| && s[t - 1] == open
    && exists j :: i <= j < t - 1 && AllSpaces(s, i, j) && s[j] == '=' && AllSpaces(s, j + 1, t - 1)
  }

  /** A whitespace run that stops at a non-space character is the one `SkipSpaces` finds. */
  lemma {:induction false} SkipSpacesAt(s: string, i: nat, j: nat)
    requires i <= j < |s| && AllSpaces(s, i, j) && !IsSpace(s[j])
    ensures SkipSpaces(s, i) == j
    decreases j - i
  {
    if i < j {
      SkipSpacesAt(s, i + 1, j);
    }
  }

  /** A run of non-quotes that stops at a quote is the one `NextQuote` finds. */
  lemma {:induction false} NextQuoteAt(s: string, i: nat, j: nat)
    requires i <= j < |s| && s[j] == '"'
    requires forall k :: i <= k < j ==> s[k] != '"'
    ensures NextQuote(s, i) == j
    decreases j - i
  {
    if i < j {
      NextQuoteAt(s, i + 1, j);
    }
  }

  /** Whitespace runs are maximal in a span, so a span is fixed by where it starts. */
  lemma AssignmentSpanUnique(s: string, i: nat, t: nat, open: char)
    requires i <= |s| && !IsSpace(open)
    requires AssignmentSpan(s, i, t, open)
    ensures SkipSpaces(s, i) < |s| && s[SkipSpaces(s, i)] == '='
    ensures t == SkipSpaces(s, SkipSpaces(s, i) + 1) + 1
  {
    var j :| i <= j < t - 1 && AllSpaces(s, i, j) && s[j] == '=' && AllSpaces(s, j + 1, t - 1);
    SkipSpacesAt(s, i, j);
    SkipSpacesAt(s, j + 1, t - 1);
  }

  /** `\s*=\s*` then the character `open`, from `i`: the index just after `open`, or -1. */
  function AssignmentOpen(s: string, i: nat, open: char): (r: int)
    requires i <= |s|
    requires !IsSpace(open)
    ensures r == -1 || (r >= 0 && AssignmentSpan(s, i, r, open))
    ensures forall t :: AssignmentSpan(s, i, t, open) ==> r == t
  {
    var j := SkipSpaces(s, i);
    assert forall t :: AssignmentSpan(s, i, t, open) ==> j < |s| && s[j] == '=' && t == SkipSpaces(s, j + 1) + 1 by {
      forall t | AssignmentSpan(s, i, t, open) ensures j < |s| && s[j] == '=' && t == SkipSpaces(s, j + 1) + 1 {
        AssignmentSpanUnique(s, i, t, open);
      }
    }
    if j < |s| && s[j] == '=' then
      var t := SkipSpaces(s, j + 1);
      if t < |s| && s[t] == open then
        assert AllSpaces(s, i, j) && AllSpaces(s, j + 1, t);
        t + 1
      else -1
    else -1
  }

  /** `s[i..end]` is `\s*=\s*"`, then `value` (a nonempty run of non-quotes), then `"`. */
  predicate QuotedSpan(s: string, i: nat, value: string, end: nat)
  {
    && |value| > 0 && '"' !in value
    && i + |value| + 3 <= end <= |s|
    && AssignmentSpan(s, i, end - 1 - |value|, '"')
    && s[end - 1 - |value|..end - 1] == value && s[end - 1] == '"'
  }

  /** `\s*=\s*"([^"]+)"` from `i`: the quoted value and the index after its closing quote. */
  function QuotedValue(s: string, i: nat): (r: Option<(string, nat)>)
    requires i <= |s|
    ensures r.Some? ==> QuotedSpan(s, i, r.value.0, r.value.1)
  {
    var t := AssignmentOpen(s, i, '"');
    if t == -1 then None
    else
      var u := NextQuote(s, t);
      if t < u < |s| then
        assert '"' !in s[t..u] by {
          assert forall k :: 0 <= k < u - t ==> s[t..u][k] == s[t + k];
        }
        Some((s[t..u], u + 1))
      else None
  }

  /** The quoted value at `i` is unique, and `QuotedValue` finds it: the value runs to the first quote. */
  lemma QuotedValueComplete(s: string, i: nat, v: string, end: nat)
    requires QuotedSpan(s, i, v, end)
    ensures QuotedValue(s, i) == Some((v, end))
  {
    var t := end - 1 - |v|;
    assert forall k :: t <= k < end - 1 ==> s[k] == v[k - t];
    NextQuoteAt(s, t, end - 1);
  }

  /** The three item-key patterns of `parse_items`. */
  datatype KeyPattern =
    | ClassicPattern      // \["(item:\d+(?::\d+)*?)"\]
    | RetailBonusPattern  // \["(i:\d+(?::[\d:]+)?(?::[\d:]*)?)\\\"?\]
    | RetailSimplePattern // \["(i:\d+[:\d]*?)"\]

  /** The key shape each pattern accepts. */
  predicate KeyFits(pattern: KeyPattern, key: string)
  {
    if pattern.ClassicPattern? then IsClassicKeyShape(key) else IsRetailKeyShape(key)
  }

  /** The characters a fitting key is made of: letters of its prefix, digits and colons, never a quote or a backslash. */
  lemma KeyFitsChars(pattern: KeyPattern, key: string)
    requires KeyFits(pattern, key)
    ensures '"' !in key && '\\' !in key
    ensures !pattern.ClassicPattern? ==> key[0] == 'i' && key[1] == ':' && IsDigit(key[2])
    ensures !pattern.ClassicPattern? ==> forall k :: 2 <= k < |key| ==> IsDigit(key[k]) || key[k] == ':'
  {
    var prefix := if pattern.ClassicPattern? then ClassicPrefix else RetailPrefix;
    assert |prefix| == if pattern.ClassicPattern? then 5 else 2;
    assert key[..|prefix|] == prefix;
    forall k | 0 <= k < |key| ensures key[k] != '"' && key[k] != '\\' {
      if k < |prefix| {
        assert key[k] == key[..|prefix|][k];
        assert key[k] in prefix;
        assert '"' !in prefix && '\\' !in prefix;
      }
    }
    assert key[0] == prefix[0] && key[1] == prefix[1];
  }

  /**
   * `s[p..e]` is `["`, then `key` in the pattern's shape, then the pattern's
   * closing text: `"]` for the two quoted forms; for the bonus form a
   * backslash, optionally a `"`, and `]`.
   */
  predicate BracketKeySpan(s: string, p: nat, pattern: KeyPattern, key: string, e: nat)
  {
    var k := p + 2 + |key|;
    && k < e <= |s| && s[p] == '[' && s[p + 1] == '"' && s[p + 2..k] == key && KeyFits(pattern, key)
    && if pattern.RetailBonusPattern? then
         && s[k] == '\\'
         && ((e == k + 2 && s[k + 1] == ']') || (e == k + 3 && s[k + 1] == '"' && s[k + 2] == ']'))
       else e == k + 2 && s[k] == '"' && s[k + 1] == ']'
  }

  /** A key made of digits and colons that stops at another character is the run `DigitColonEnd` finds. */
  lemma {:induction false} DigitColonEndAt(s: string, i: nat, j: nat)
    requires i <= j < |s| && !(IsDigit(s[j]) || s[j] == ':')
    requires forall k :: i <= k < j ==> IsDigit(s[k]) || s[k] == ':'
    ensures DigitColonEnd(s, i) == j
    decreases j - i
  {
    if i < j {
      DigitColonEndAt(s, i + 1, j);
    }
  }

  /** The span of a key at `p` is fixed by `p`: the key runs to the first character that cannot belong to it. */
  lemma BracketKeySpanUnique(s: string, p: nat, pattern: KeyPattern, key: string, e: nat)
    requires BracketKeySpan(s, p, pattern, key, e)
    ensures BracketKey(s, p, pattern) == Some((key, e))
  {
    var k := p + 2 + |key|;
    KeyFitsChars(pattern, key);
    assert forall j :: p + 2 <= j < k ==> s[j] == key[j - p - 2];
    if pattern.RetailBonusPattern? {
      DigitColonEndAt(s, p + 4, k);
    } else {
      NextQuoteAt(s, p + 2, k);
    }
  }

  /**
   * The bracketed key at `p` for one pattern, and the index after its closing `]`.
   * The two quoted forms end at the first `"`; the bonus form ends at the first
   * character that is neither a digit nor a colon, which must be a backslash,
   * optionally followed by `"`.
   */
  function BracketKey(s: string, p: nat, pattern: KeyPattern): (r: Option<(string, nat)>)
    requires p <= |s|
    ensures r.Some? ==> BracketKeySpan(s, p, pattern, r.value.0, r.value.1)
  {
    if !(p + 2 <= |s| && s[p] == '[' && s[p + 1] == '"') then None
    else if pattern.RetailBonusPattern? then
      if p + 5 <= |s| && s[p + 2] == 'i' && s[p + 3] == ':' && IsDigit(s[p + 4]) then
        var k := DigitColonEnd(s, p + 4);
        var key := s[p + 2..k];
        assert key[..2] == RetailPrefix;
        if k < |s| && s[k] == '\\' then
          if k + 2 < |s| && s[k + 1] == '"' && s[k + 2] == ']' then Some((key, k + 3))
          else if k + 1 < |s| && s[k + 1] == ']' then Some((key, k + 2))
          else None
        else None
      else None
    else
      var q := NextQuote(s, p + 2);
      var key := s[p + 2..q];
      if q + 1 < |s| && s[q + 1] == ']' && KeyFits(pattern, key) then Some((key, q + 2)) else None
  }

  /** One assignment `["<key>"] = "<group>"` of the pattern spanning `s[p..end]`. */
  ghost predicate EntryMatch(s: string, p: nat, pattern: KeyPattern, key: string, group: string, end: nat)
  {
    exists e: nat :: BracketKeySpan(s, p, pattern, key, e) && QuotedSpan(s, e, group, end)
  }

  /** The pattern matches at `p`. */
  ghost predicate EntryAt(s: string, p: nat, pattern: KeyPattern)
  {
    exists key: string, group: string, end: nat :: EntryMatch(s, p, pattern, key, group, end)
  }

  /**
   * The assignment of the pattern at `p`: key, group and the end of the match.
   * The match at a position is unique, and this finds it whenever there is one.
   */
  function ItemEntryAt(s: string, p: nat, pattern: KeyPattern): (r: Option<(string, string, nat)>)
    requires p <= |s|
    ensures r.Some? ==> p < r.value.2 <= |s|
    ensures r.Some? ==> KeyFits(pattern, r.value.0) && |r.value.1| > 0 && '"' !in r.value.1
    ensures r.Some? ==> EntryMatch(s, p, pattern, r.value.0, r.value.1, r.value.2)
  {
    match BracketKey(s, p, pattern)
    case None => None
    case Some((key, e)) =>
      match QuotedValue(s, e)
      case None => None
      case Some((group, end)) => Some((key, group, end))
  }

  /** `re.findall` of one item-assignment pattern from position `p`, as (key, group) pairs in text order. */
  function FindAllEntries(s: string, pattern: KeyPattern, p: nat): (r: seq<(string, string)>)
    requires p <= |s|
    ensures forall i :: 0 <= i < |r| ==> KeyFits(pattern, r[i].0) && |r[i].1| > 0 && '"' !in r[i].1
    decreases |s| - p
  {
    if p == |s| then []
    else
      match ItemEntryAt(s, p, pattern)
      case Some((key, group, end)) => [(key, group)] + FindAllEntries(s, pattern, end)
      case None => FindAllEntries(s, pattern, p + 1)
  }

  /** The match at `p` is unique, and `ItemEntryAt` finds it. */
  lemma ItemEntryAtComplete(s: string, p: nat, pattern: KeyPattern, key: string, group: string, end: nat)
    requires EntryMatch(s, p, pattern, key, group, end)
    ensures p <= |s| && ItemEntryAt(s, p, pattern) == Some((key, group, end))
  {
    var e: nat :| BracketKeySpan(s, p, pattern, key, e) && QuotedSpan(s, e, group, end);
    BracketKeySpanUnique(s, p, pattern, key, e);
    QuotedValueComplete(s, e, group, end);
  }

  /** The scanner reports no assignment at `p` exactly when the pattern does not match there. */
  lemma ItemEntryAtNone(s: string, p: nat, pattern: KeyPattern)
    requires p <= |s|
    ensures ItemEntryAt(s, p, pattern).None? <==> !EntryAt(s, p, pattern)
  {
    if ItemEntryAt(s, p, pattern).Some? {
      var v := ItemEntryAt(s, p, pattern).value;
      assert EntryMatch(s, p, pattern, v.0, v.1, v.2);
    } else if EntryAt(s, p, pattern) {
      var key: string, group: string, end: nat :| EntryMatch(s, p, pattern, key, group, end);
      ItemEntryAtComplete(s, p, pattern, key, group, end);
    }
  }

  /** A position where the pattern does not match is skipped. */
  lemma FindAllEntriesStep(s: string, pattern: KeyPattern, p: nat)
    requires p < |s| && !EntryAt(s, p, pattern)
    ensures FindAllEntries(s, pattern, p) == FindAllEntries(s, pattern, p + 1)
  {
    ItemEntryAtNone(s, p, pattern);
  }

  /** Positions where the scanner reports nothing are skipped one by one. */
  lemma {:induction false} FindAllEntriesSkip(s: string, pattern: KeyPattern, p: nat, q: nat)
    requires p <= q <= |s|
    requires NoEntryBetween(s, pattern, p, q)
    ensures FindAllEntries(s, pattern, p) == FindAllEntries(s, pattern, q)
    decreases q - p
  {
    if p < q {
      FindAllEntriesStep(s, pattern, p);
      FindAllEntriesSkip(s, pattern, p + 1, q);
    }
  }

  /** The pattern matches at no position of `[p, q)`, position by position. */
  ghost predicate NoEntryBetween(s: string, pattern: KeyPattern, p: nat, q: nat)
    decreases q - p
  {
    p < q ==> !EntryAt(s, p, pattern) && NoEntryBetween(s, pattern, p + 1, q)
  }

  /** The quantified form of the same fact. */
  lemma {:induction false} NoEntryBetweenAll(s: string, pattern: KeyPattern, p: nat, q: nat)
    requires forall q': nat :: p <= q' < q ==> !EntryAt(s, q', pattern)
    ensures NoEntryBetween(s, pattern, p, q)
    decreases q - p
  {
    if p < q {
      NoEntryBetweenAll(s, pattern, p + 1, q);
    }
  }

  /** `findall` finds nothing from `p` exactly when the pattern matches at no position from `p` on. */
  lemma {:induction false} FindAllEntriesEmpty(s: string, pattern: KeyPattern, p: nat)
    requires p <= |s|
    ensures FindAllEntries(s, pattern, p) == [] <==> forall q: nat :: p <= q <= |s| ==> !EntryAt(s, q, pattern)
    decreases |s| - p
  {
    ItemEntryAtNone(s, p, pattern);
    if p < |s| && ItemEntryAt(s, p, pattern).None? {
      FindAllEntriesEmpty(s, pattern, p + 1);
    }
  }

  /**
   * `findall` takes the leftmost match first and resumes the scan at its end:
   * when the first match from `p` on is at `q`, it contributes the first pair.
   */
  lemma FindAllEntriesFirst(s: string, pattern: KeyPattern, p: nat, q: nat, key: string, group: string, end: nat)
    requires p <= q
    requires EntryMatch(s, q, pattern, key, group, end)
    requires forall q': nat :: p <= q' < q ==> !EntryAt(s, q', pattern)
    ensures q < end <= |s|
    ensures FindAllEntries(s, pattern, p) == [(key, group)] + FindAllEntries(s, pattern, end)
  {
    ItemEntryAtComplete(s, q, pattern, key, group, end);
    NoEntryBetweenAll(s, pattern, p, q);
    FindAllEntriesSkip(s, pattern, p, q);
  }

  // ---------------------------------------------------------------------------
  // Table keys: \["([^"]+)"\]\s*=\s*\{
  // ---------------------------------------------------------------------------

  /** `s[p..e]` is `["`, a nonempty name without quotes, `"]`, then `\s*=\s*{`. */
  predicate TableKeySpan(s: string, p: nat, name: string, e: nat)
  {
    var k := p + 2 + |name|;
    && |name| > 0 && '"' !in name && k + 2 <= |s|
    && s[p] == '[' && s[p + 1] == '"' && s[p + 2..k] == name && s[k] == '"' && s[k + 1] == ']'
    && AssignmentSpan(s, k + 2, e, '{')
  }

  /**
   * `["<name>"] = {` at `p`: a nonempty name without quotes and the index
   * after `{`. `TableKeyAtSound` and `TableKeyAtComplete` show that it finds
   * exactly the one match at `p` whenever there is one.
   */
  function TableKeyAt(s: string, p: nat): (r: Option<(string, nat)>)
    requires p <= |s|
    ensures r.Some? ==> p < r.value.1 <= |s| && |r.value.0| > 0 && '"' !in r.value.0
  {
    if !(p + 2 <= |s| && s[p] == '[' && s[p + 1] == '"') then None
    else
      var q := NextQuote(s, p + 2);
      if p + 2 < q && q + 1 < |s| && s[q + 1] == ']' then
        var e := AssignmentOpen(s, q + 2, '{');
        if e == -1 then None
        else
          var name := s[p + 2..q];
          assert '"' !in name by {
            assert forall j :: 0 <= j < |name| ==> name[j] == s[p + 2 + j];
          }
          Some((name, e))
      else None
  }

  /** What `TableKeyAt` finds is a match of the pattern at `p`. */
  lemma TableKeyAtSound(s: string, p: nat)
    requires p <= |s| && TableKeyAt(s, p).Some?
    ensures TableKeySpan(s, p, TableKeyAt(s, p).value.0, TableKeyAt(s, p).value.1)
  {
  }

  /** The match at `p` is unique, and `TableKeyAt` finds it: the name runs to the first quote. */
  lemma TableKeyAtComplete(s: string, p: nat, name: string, e: nat)
    requires TableKeySpan(s, p, name, e)
    ensures TableKeyAt(s, p) == Some((name, e))
  {
    assert forall j :: p + 2 <= j < p + 2 + |name| ==> s[j] == name[j - p - 2];
    NextQuoteAt(s, p + 2, p + 2 + |name|);
  }

  /** A backtick followed by at least one more character (the name part of `([^"]*`[^"]+)`). */
  predicate HasInnerBacktick(name: string)
  {
    exists i :: 0 <= i < |name| - 1 && name[i] == '`'
  }

  /**
   * `re.findall` of a table-key pattern from `p`. With `needBacktick` the
   * pattern is the one whose name must contain an inner backtick; a position
   * whose name lacks one is not a match, and the scan moves on by one character.
   */
  function FindAllTableKeys(s: string, needBacktick: bool, p: nat): (r: seq<string>)
    requires p <= |s|
    ensures forall i :: 0 <= i < |r| ==> |r[i]| > 0 && '"' !in r[i] && (needBacktick ==> HasInnerBacktick(r[i]))
    decreases |s| - p
  {
    if p == |s| then []
    else
      match TableKeyAt(s, p)
      case Some((name, end)) =>
        if !needBacktick || HasInnerBacktick(name) then [name] + FindAllTableKeys(s, needBacktick, end)
        else FindAllTableKeys(s, needBacktick, p + 1)
      case None => FindAllTableKeys(s, needBacktick, p + 1)
  }

  /** The table-key pattern matches at `p`; with `needBacktick`, only a name holding an inner backtick counts. */
  ghost predicate TableKeyMatchAt(s: string, p: nat, needBacktick: bool)
  {
    exists name: string, e: nat :: TableKeySpan(s, p, name, e) && (needBacktick ==> HasInnerBacktick(name))
  }

  /** The scanner contributes a name at `p` exactly when the pattern matches there. */
  lemma TableKeyAtMatch(s: string, p: nat, needBacktick: bool)
    requires p <= |s|
    ensures TableKeyMatchAt(s, p, needBacktick) <==>
      TableKeyAt(s, p).Some? && (needBacktick ==> HasInnerBacktick(TableKeyAt(s, p).value.0))
  {
    if TableKeyAt(s, p).Some? {
      TableKeyAtSound(s, p);
      if TableKeyMatchAt(s, p, needBacktick) {
        var name: string, e: nat :| TableKeySpan(s, p, name, e) && (needBacktick ==> HasInnerBacktick(name));
        TableKeyAtComplete(s, p, name, e);
      }
    } else if TableKeyMatchAt(s, p, needBacktick) {
      var name: string, e: nat :| TableKeySpan(s, p, name, e) && (needBacktick ==> HasInnerBacktick(name));
      TableKeyAtComplete(s, p, name, e);
    }
  }

  /** A position where the pattern does not match is skipped. */
  lemma FindAllTableKeysStep(s: string, needBacktick: bool, p: nat)
    requires p < |s| && !TableKeyMatchAt(s, p, needBacktick)
    ensures FindAllTableKeys(s, needBacktick, p) == FindAllTableKeys(s, needBacktick, p + 1)
  {
    TableKeyAtMatch(s, p, needBacktick);
  }

  /** The table-key pattern matches at no position of `[p, q)`, position by position. */
  ghost predicate NoTableKeyBetween(s: string, needBacktick: bool, p: nat, q: nat)
    decreases q - p
  {
    p < q ==> !TableKeyMatchAt(s, p, needBacktick) && NoTableKeyBetween(s, needBacktick, p + 1, q)
  }

  /** The quantified form of the same fact. */
  lemma {:induction false} NoTableKeyBetweenAll(s: string, needBacktick: bool, p: nat, q: nat)
    requires forall q': nat :: p <= q' < q ==> !TableKeyMatchAt(s, q', needBacktick)
    ensures NoTableKeyBetween(s, needBacktick, p, q)
    decreases q - p
  {
    if p < q {
      NoTableKeyBetweenAll(s, needBacktick, p + 1, q);
    }
  }

  /** Positions where the pattern does not match are skipped one by one. */
  lemma {:induction false} FindAllTableKeysSkip(s: string, needBacktick: bool, p: nat, q: nat)
    requires p <= q <= |s|
    requires NoTableKeyBetween(s, needBacktick, p, q)
    ensures FindAllTableKeys(s, needBacktick, p) == FindAllTableKeys(s, needBacktick, q)
    decreases q - p
  {
    if p < q {
      FindAllTableKeysStep(s, needBacktick, p);
      FindAllTableKeysSkip(s, needBacktick, p + 1, q);
    }
  }

  /** `findall` finds no name from `p` exactly when the pattern matches at no position from `p` on. */
  lemma {:induction false} FindAllTableKeysEmpty(s: string, needBacktick: bool, p: nat)
    requires p <= |s|
    ensures FindAllTableKeys(s, needBacktick, p) == [] <==> forall q: nat :: p <= q <= |s| ==> !TableKeyMatchAt(s, q, needBacktick)
    decreases |s| - p
  {
    TableKeyAtMatch(s, p, needBacktick);
    if p < |s| {
      var kept, name, end := FindAllTableKeysUnfold(s, needBacktick, p);
      if !kept {
        FindAllTableKeysEmpty(s, needBacktick, p + 1);
      }
    }
  }

  /**
   * `findall` takes the leftmost match first and resumes the scan at its end:
   * when the first match from `p` on is at `q`, its name comes first.
   */
  lemma FindAllTableKeysFirst(s: string, needBacktick: bool, p: nat, q: nat, name: string, e: nat)
    requires p <= q
    requires TableKeySpan(s, q, name, e) && (needBacktick ==> HasInnerBacktick(name))
    requires forall q': nat :: p <= q' < q ==> !TableKeyMatchAt(s, q', needBacktick)
    ensures q < e <= |s|
    ensures FindAllTableKeys(s, needBacktick, p) == [name] + FindAllTableKeys(s, needBacktick, e)
  {
    TableKeyAtComplete(s, q, name, e);
    NoTableKeyBetweenAll(s, needBacktick, p, q);
    FindAllTableKeysSkip(s, needBacktick, p, q);
  }

  /** One step of the scan at `p`: either a kept match, whose name comes first, or a position passed over. */
  lemma FindAllTableKeysUnfold(s: string, needBacktick: bool, p: nat) returns (kept: bool, name: string, end: nat)
    requires p < |s|
    ensures kept <==> TableKeyAt(s, p).Some? && (needBacktick ==> HasInnerBacktick(TableKeyAt(s, p).value.0))
    ensures kept ==> p < end <= |s| && TableKeyAt(s, p) == Some((name, end))
    ensures kept ==> FindAllTableKeys(s, needBacktick, p) == [name] + FindAllTableKeys(s, needBacktick, end)
    ensures !kept ==> FindAllTableKeys(s, needBacktick, p) == FindAllTableKeys(s, needBacktick, p + 1)
  {
    match TableKeyAt(s, p)
    case Some((n, e)) =>
      kept := !needBacktick || HasInnerBacktick(n);
      name, end := n, e;
    case None =>
      kept, name, end := false, "", 0;
  }

  /** Every name the scan returns is the name of a table-key match at or after `p`: where it starts and ends. */
  lemma {:induction false} FindAllTableKeysSound(s: string, needBacktick: bool, p: nat, i: nat) returns (q: nat, e: nat)
    requires p <= |s| && i < |FindAllTableKeys(s, needBacktick, p)|
    ensures p <= q <= |s| && TableKeyAt(s, q) == Some((FindAllTableKeys(s, needBacktick, p)[i], e))
    decreases |s| - p, 1
  {
    if p < |s| {
      var kept, name, end := FindAllTableKeysUnfold(s, needBacktick, p);
      if kept {
        q, e := FindAllTableKeysSoundKept(s, needBacktick, p, i, name, end);
      } else {
        q, e := FindAllTableKeysSoundPassed(s, needBacktick, p, i);
      }
    }
  }

  /** The same, once the scan has passed over `p`. */
  lemma {:induction false} FindAllTableKeysSoundPassed(s: string, needBacktick: bool, p: nat, i: nat) returns (q: nat, e: nat)
    requires p < |s| && FindAllTableKeys(s, needBacktick, p) == FindAllTableKeys(s, needBacktick, p + 1)
    requires i < |FindAllTableKeys(s, needBacktick, p)|
    ensures p <= q <= |s| && TableKeyAt(s, q) == Some((FindAllTableKeys(s, needBacktick, p)[i], e))
    decreases |s| - p, 0
  {
    q, e := FindAllTableKeysSound(s, needBacktick, p + 1, i);
  }

  /** The same, once the scan has kept the match at `p`. */
  lemma {:induction false} FindAllTableKeysSoundKept(s: string, needBacktick: bool, p: nat, i: nat, name: string, end: nat)
    returns (q: nat, e: nat)
    requires p < end <= |s| && TableKeyAt(s, p) == Some((name, end))
    requires FindAllTableKeys(s, needBacktick, p) == [name] + FindAllTableKeys(s, needBacktick, end)
    requires i < |FindAllTableKeys(s, needBacktick, p)|
    ensures p <= q <= |s| && TableKeyAt(s, q) == Some((FindAllTableKeys(s, needBacktick, p)[i], e))
    decreases |s| - p, 0
  {
    var rest := FindAllTableKeys(s, needBacktick, end);
    if i == 0 {
      q, e := p, end;
    } else {
      assert ([name] + rest)[i] == rest[i - 1];
      q, e := FindAllTableKeysSound(s, needBacktick, end, i - 1);
    }
  }

  /** `name` is the name of some table-key match in `s`. */
  ghost predicate IsTableKeyIn(s: string, name: string)
  {
    exists q: nat, e: nat :: TableKeySpan(s, q, name, e)
  }

  /** Every name `findall` returns from the start is the name of a match in the text. */
  lemma FindAllTableKeysIn(s: string, needBacktick: bool)
    ensures forall i :: 0 <= i < |FindAllTableKeys(s, needBacktick, 0)| ==> IsTableKeyIn(s, FindAllTableKeys(s, needBacktick, 0)[i])
  {
    var names := FindAllTableKeys(s, needBacktick, 0);
    forall i | 0 <= i < |names| ensures IsTableKeyIn(s, names[i]) {
      var q, e := FindAllTableKeysSound(s, needBacktick, 0, i);
      TableKeyAtSound(s, q);
    }
  }
}
