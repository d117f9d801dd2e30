/**
 * `load_item_ids` of the batch importer: every whole word of three to eight
 * decimal digits in the input is an item id; ids are kept once, in the order
 * of their first appearance.
 */
module BatchImport {
  import opened Wrappers
  import opened Strings

  /** The end of the run of word characters that starts at `i`. */
  function WordEnd(s: string, i: nat): (j: nat)
    requires i <= |s|
    ensures i <= j <= |s|
    ensures forall k :: i <= k < j ==> IsWordChar(s[k])
    ensures j == |s| || !IsWordChar(s[j])
    decreases |s| - i
  {
    if i == |s| || !IsWordChar(s[i]) then i else WordEnd(s, i + 1)
  }

  /**
   * `s[p..q]` is a match of `\b(\d{3,8})\b`: three to eight digits with a word
   * boundary on each side, that is, a whole word made of digits only.
   */
  predicate IsIdToken(s: string, p: int, q: int)
  {
    && 0 <= p < q <= |s|
    && (p == 0 || !IsWordChar(s[p - 1]))
    && (q == |s| || !IsWordChar(s[q]))
    && 3 <= q - p <= 8
    && AllDigits(s[p..q])
  }

  /**
   * `re.findall(r'\b(\d{3,8})\b', s)` from position `i`, as the spans matched:
   * the scan skips non-word characters and tries each word once, as a whole.
   */
  function IdSpans(s: string, i: nat): (r: seq<(nat, nat)>)
    requires i <= |s|
    requires i == 0 || i == |s| || !IsWordChar(s[i - 1])
    ensures forall k :: 0 <= k < |r| ==> IsIdToken(s, r[k].0, r[k].1) && i <= r[k].0
    ensures forall k :: 0 <= k < |r| - 1 ==> r[k].1 < r[k + 1].0
    decreases |s| - i
  {
    if i == |s| then []
    else if !IsWordChar(s[i]) then IdSpans(s, i + 1)
    else
      var j := WordEnd(s, i);
      var rest := IdSpans(s, if j < |s| then j + 1 else j);
      if 3 <= j - i <= 8 && AllDigits(s[i..j]) then ConsSpan(s, i, j, rest); [(i, j)] + rest else rest
  }

  /** A matched word followed by the matches after it keeps the matches sound and in order. */
  lemma ConsSpan(s: string, i: nat, j: nat, rest: seq<(nat, nat)>)
    requires IsIdToken(s, i, j)
    requires forall k :: 0 <= k < |rest| ==> IsIdToken(s, rest[k].0, rest[k].1) && j < rest[k].0
    requires forall k :: 0 <= k < |rest| - 1 ==> rest[k].1 < rest[k + 1].0
    ensures forall k :: 0 <= k < |rest| + 1 ==> IsIdToken(s, ([(i, j)] + rest)[k].0, ([(i, j)] + rest)[k].1) && i <= ([(i, j)] + rest)[k].0
    ensures forall k :: 0 <= k < |rest| ==> ([(i, j)] + rest)[k].1 < ([(i, j)] + rest)[k + 1].0
  {
  }

  /** No whole word of three to eight digits is missed. */
  lemma {:induction false} IdSpansComplete(s: string, i: nat, p: nat, q: nat)
    requires i <= |s|
    requires i == 0 || i == |s| || !IsWordChar(s[i - 1])
    requires i <= p && IsIdToken(s, p, q)
    ensures (p, q) in IdSpans(s, i)
    decreases |s| - i
  {
    assert IsDigit(s[p..q][0]);
    if !IsWordChar(s[i]) {
      IdSpansComplete(s, i + 1, p, q);
    } else {
      var j := WordEnd(s, i);
      forall k | p <= k < q ensures IsWordChar(s[k]) {
        assert s[p..q][k - p] == s[k];
      }
      if p == i {
        assert q == j;
      } else {
        assert !IsWordChar(s[p - 1]);
        assert j + 1 <= p;
        IdSpansComplete(s, j + 1, p, q);
      }
    }
  }

  /** The integers of the matched words, in the order found (`int(match)` for each match). */
  function IdValues(s: string): (r: seq<nat>)
  {
    var spans := IdSpans(s, 0);
    seq(|spans|, k requires 0 <= k < |spans| => DigitsValue(s[spans[k].0..spans[k].1]))
  }

  /** The list with each value kept at its first appearance only (`if item_id not in ids: ids.append(item_id)`). */
  function Dedup(xs: seq<nat>): (r: seq<nat>)
    ensures forall x :: x in r <==> x in xs
    ensures forall a, b :: 0 <= a < b < |r| ==> r[a] != r[b]
  {
    if |xs| == 0 then []
    else
      var prev := Dedup(xs[..|xs| - 1]);
      var x := xs[|xs| - 1];
      assert forall y :: y in xs <==> y in xs[..|xs| - 1] || y == x;
      if x in prev then prev else prev + [x]
  }

  /** The index of the first occurrence of `x`. */
  function FirstPos(xs: seq<nat>, x: nat): (k: nat)
    requires x in xs
    ensures k < |xs| && xs[k] == x
    ensures forall j :: 0 <= j < k ==> xs[j] != x
  {
    if xs[0] == x then 0 else 1 + FirstPos(xs[1..], x)
  }

  lemma FirstPosSnoc(xs: seq<nat>, x: nat)
    requires |xs| > 0 && x in xs
    ensures x in xs[..|xs| - 1] ==> FirstPos(xs, x) == FirstPos(xs[..|xs| - 1], x)
    ensures x !in xs[..|xs| - 1] ==> FirstPos(xs, x) == |xs| - 1
  {
    var init := xs[..|xs| - 1];
    var k := FirstPos(xs, x);
    if x in init {
      var k' := FirstPos(init, x);
      assert xs[k'] == x;
      assert k <= k';
      assert init[k] == x;
    } else {
      assert forall j :: 0 <= j < |init| ==> init[j] == xs[j];
    }
  }

  /** Deduplicating keeps the values in the order of their first appearance. */
  lemma {:induction false} DedupKeepsFirstOrder(xs: seq<nat>)
    ensures forall a, b :: 0 <= a < b < |Dedup(xs)| ==> FirstPos(xs, Dedup(xs)[a]) < FirstPos(xs, Dedup(xs)[b])
  {
    if |xs| > 0 {
      var init := xs[..|xs| - 1];
      var prev := Dedup(init);
      var r := Dedup(xs);
      DedupKeepsFirstOrder(init);
      forall a, b | 0 <= a < b < |r| ensures FirstPos(xs, r[a]) < FirstPos(xs, r[b]) {
        assert r[a] in init;
        FirstPosSnoc(xs, r[a]);
        FirstPosSnoc(xs, r[b]);
        if b < |prev| {
          assert r[a] == prev[a] && r[b] == prev[b];
        }
      }
    }
  }

  /**
   * `load_item_ids`: the text is the named file's contents when the file
   * exists (`file` carries them) and the argument itself otherwise.
   */
  function LoadItemIds(source: string, file: Option<string>): (r: seq<nat>)
    ensures forall a, b :: 0 <= a < b < |r| ==> r[a] != r[b]
  {
    Dedup(IdValues(file.GetOr(source)))
  }

  /** Every matched value is the value of a whole word of three to eight digits. */
  lemma IdValuesSound(s: string, x: nat)
    requires x in IdValues(s)
    ensures exists p, q :: IsIdToken(s, p, q) && DigitsValue(s[p..q]) == x
  {
    var spans := IdSpans(s, 0);
    var k :| 0 <= k < |spans| && IdValues(s)[k] == x;
    assert IsIdToken(s, spans[k].0, spans[k].1);
  }

  /** Every whole word of three to eight digits contributes its value. */
  lemma IdValuesComplete(s: string, p: nat, q: nat)
    requires IsIdToken(s, p, q)
    ensures DigitsValue(s[p..q]) in IdValues(s)
  {
    var spans := IdSpans(s, 0);
    IdSpansComplete(s, 0, p, q);
    var k :| 0 <= k < |spans| && spans[k] == (p, q);
    assert IdValues(s)[k] == DigitsValue(s[p..q]);
  }

  /** An id is loaded exactly when some whole word of three to eight digits in the text has its value. */
  lemma LoadItemIdsExact(source: string, file: Option<string>, x: nat)
    ensures x in LoadItemIds(source, file) <==>
      exists p, q :: IsIdToken(file.GetOr(source), p, q) && DigitsValue(file.GetOr(source)[p..q]) == x
  {
    var s := file.GetOr(source);
    if x in LoadItemIds(source, file) {
      IdValuesSound(s, x);
    }
    if exists p, q :: IsIdToken(s, p, q) && DigitsValue(s[p..q]) == x {
      var p, q :| IsIdToken(s, p, q) && DigitsValue(s[p..q]) == x;
      IdValuesComplete(s, p, q);
    }
  }

  function Pow10(n: nat): nat
  {
    if n == 0 then 1 else 10 * Pow10(n - 1)
  }

  lemma {:induction false} DigitsValueBelow(s: string)
    requires AllDigits(s)
    ensures DigitsValue(s) < Pow10(|s|)
  {
    if |s| > 0 {
      DigitsValueBelow(s[..|s| - 1]);
    }
  }

  lemma {:induction false} Pow10Monotone(m: nat, n: nat)
    requires m <= n
    ensures Pow10(m) <= Pow10(n)
    decreases n
  {
    if m < n {
      Pow10Monotone(m, n - 1);
    }
  }

  lemma Pow10Eight()
    ensures Pow10(8) == 100000000
  {
    assert Pow10(2) == 100;
    assert Pow10(4) == 10000;
    assert Pow10(6) == 1000000;
  }

  lemma TokenBelow(s: string, p: nat, q: nat)
    requires IsIdToken(s, p, q)
    ensures DigitsValue(s[p..q]) < 100000000
  {
    DigitsValueBelow(s[p..q]);
    Pow10Monotone(q - p, 8);
    Pow10Eight();
  }

  /** Every loaded id has at most eight digits. */
  lemma LoadedIdsBelow(source: string, file: Option<string>, x: nat)
    requires x in LoadItemIds(source, file)
    ensures x < 100000000
  {
    var s := file.GetOr(source);
    LoadItemIdsExact(source, file, x);
    var p, q :| IsIdToken(s, p, q) && DigitsValue(s[p..q]) == x;
    TokenBelow(s, p, q);
  }
}
