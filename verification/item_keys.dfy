/**
 * The two textual encodings of an item key and their decoder
 * (`TSMLuaParser.get_item_id` and `is_retail_format` in lua_parser.py).
 *
 *   classic (WotLK / 3.3.5a):  item:<id>:0:0:0:0:0:0
 *   retail:                    i:<id>   or   i:<id>::<bonus1>:<bonus2>...
 */
module ItemKeys {
  import opened Wrappers
  import opened Strings

  const RetailPrefix: string := "i:"
  const ClassicPrefix: string := "item:"

  /** The two prefixes differ in their second character, so no key carries both. */
  lemma PrefixesExclusive(key: string)
    ensures !(StartsWith(key, ClassicPrefix) && StartsWith(key, RetailPrefix))
  {
    assert StartsWith(key, ClassicPrefix) ==> key[1] == ClassicPrefix[1];
    assert StartsWith(key, RetailPrefix) ==> key[1] == RetailPrefix[1];
  }

  /** The retail encoding starts with `i:`; a classic key never does. */
  function IsRetailFormat(key: string): (r: bool)
    ensures StartsWith(key, ClassicPrefix) ==> !r
    ensures r <==> |key| >= 2 && key[0] == 'i' && key[1] == ':'
  {
    PrefixesExclusive(key);
    StartsWith(key, RetailPrefix)
  }

  /** The value of the digit run that starts at `i`, if there is at least one digit there. */
  function LeadingNumber(s: string, i: nat): (r: Option<nat>)
    requires i <= |s|
    ensures r.Some? <==> i < |s| && IsDigit(s[i])
  {
    if i < |s| && IsDigit(s[i]) then Some(DigitsValue(s[i..DigitsEnd(s, i)])) else None
  }

  /**
   * The numeric id of a key: the digits after `i:` are tried first, then the digits after `item:`;
   * anything else has no id. Only the leading digit run counts, so bonus ids and the classic
   * zero suffixes are ignored.
   */
  function GetItemId(key: string): (r: Option<nat>)
    ensures !StartsWith(key, RetailPrefix) && !StartsWith(key, ClassicPrefix) ==> r.None?
    ensures StartsWith(key, RetailPrefix) ==> r == LeadingNumber(key, 2)
    ensures StartsWith(key, ClassicPrefix) ==> r == LeadingNumber(key, 5)
  {
    PrefixesExclusive(key);
    if StartsWith(key, RetailPrefix) && LeadingNumber(key, 2).Some? then LeadingNumber(key, 2)
    else if StartsWith(key, ClassicPrefix) then LeadingNumber(key, 5)
    else None
  }

  /** A logical item key in one of the two encodings. */
  datatype ItemKey = Classic(id: nat) | Retail(id: nat, bonuses: seq<nat>)

  function JoinNumbers(ns: seq<nat>): string
  {
    if |ns| == 0 then [] else if |ns| == 1 then NatToString(ns[0]) else NatToString(ns[0]) + ":" + JoinNumbers(ns[1..])
  }

  /** The text of a key as the saved-variables file stores it. */
  function Encode(k: ItemKey): string
  {
    match k
    case Classic(id) => ClassicPrefix + NatToString(id) + ":0:0:0:0:0:0"
    case Retail(id, bonuses) => RetailPrefix + NatToString(id) + (if |bonuses| == 0 then "" else "::" + JoinNumbers(bonuses))
  }

  /** Decoding an encoded key yields its id, whichever encoding and bonus list it has. */
  lemma DecodeEncode(k: ItemKey)
    ensures GetItemId(Encode(k)) == Some(k.id)
    ensures IsRetailFormat(Encode(k)) <==> k.Retail?
  {
    var digits := NatToString(k.id);
    var s := Encode(k);
    var at := if k.Retail? then 2 else 5;
    var suffix := if k.Classic? then ":0:0:0:0:0:0" else if |k.bonuses| == 0 then "" else "::" + JoinNumbers(k.bonuses);
    assert s == s[..at] + digits + suffix;
    assert s[at..at + |digits|] == digits;
    DigitsEndOfRun(s, at, digits);
    assert s[at..DigitsEnd(s, at)] == digits;
    assert s[at] == digits[0];
  }

  // ---------------------------------------------------------------------------
  // Key shapes accepted by the parser's patterns
  // ---------------------------------------------------------------------------

  /** `item:\d+(?::\d+)*` */
  predicate IsClassicKeyShape(key: string)
  {
    && StartsWith(key, ClassicPrefix) && |key| > 5 && IsDigit(key[5])
    && (forall i :: 5 <= i < |key| ==> IsDigit(key[i]) || key[i] == ':')
    && IsDigit(key[|key| - 1])
    && forall i, j :: 5 <= i < |key| - 1 && j == i + 1 && key[i] == ':' ==> IsDigit(key[j])
  }

  /** `i:\d+[:\d]*` */
  predicate IsRetailKeyShape(key: string)
  {
    && StartsWith(key, RetailPrefix) && |key| > 2 && IsDigit(key[2])
    && forall i :: 3 <= i < |key| ==> IsDigit(key[i]) || key[i] == ':'
  }

  /** Every key the parser's patterns accept, with trailing colons stripped, has an id. */
  lemma ShapedKeysDecode(key: string)
    ensures IsClassicKeyShape(key) ==> GetItemId(key).Some? && !IsRetailFormat(key)
    ensures IsRetailKeyShape(key) ==> GetItemId(TrimRight(key, ':')).Some? && IsRetailFormat(TrimRight(key, ':'))
  {
    if IsRetailKeyShape(key) {
      var t := TrimRight(key, ':');
      assert |t| >= 3;
      assert t[..2] == key[..2];
      assert t[2] == key[2];
    }
  }
}
