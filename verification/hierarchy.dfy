/**
 * `TSMLuaParser.get_group_hierarchy`: parent path to child paths, built from
 * the backtick-separated group paths. The root parent is the empty string.
 */
module Hierarchy {
  import opened Wrappers
  import opened Strings
  import opened Dict
  import opened StringOrder
  import opened LuaParser
  import opened GroupSection

  /** The separator between the segments of a group path. */
  const Sep: char := '`'

  type Tree = Dict<string, seq<string>>

  /** The path made of the first `n` segments (`'`'.join(parts[:n])`). */
  function PathPrefix(parts: seq<string>, n: nat): string
    requires n <= |parts|
  {
    Join(parts[..n], Sep)
  }

  /** `child` is `parent` extended by one segment; children of the root are single segments. */
  predicate IsChildOf(parent: string, child: string)
  {
    || (parent == [] && Sep !in child)
    || (|child| > |parent| && child[..|parent|] == parent && child[|parent|] == Sep && Sep !in child[|parent| + 1..])
  }

  predicate NoDuplicates(xs: seq<string>)
  {
    forall i, j :: 0 <= i < j < |xs| ==> xs[i] != xs[j]
  }

  /**
   * The invariants of the hierarchy: one entry per parent, every parent with
   * at least one child, no child listed twice, every child one segment deeper.
   */
  predicate WellFormed(h: Tree)
  {
    && UniqueKeys(h)
    && forall p :: p in Keys(h) ==>
      && |Get(h, p).value| > 0 && NoDuplicates(Get(h, p).value)
      && forall c :: c in Get(h, p).value ==> IsChildOf(p, c)
  }

  /** `child` is listed under `parent`. */
  predicate Records(h: Tree, parent: string, child: string)
  {
    parent in Keys(h) && child in Get(h, parent).value
  }

  /** Storing a duplicate-free list of children of `parent` keeps the tree well formed and leaves other parents alone. */
  lemma PutWellFormed(h: Tree, parent: string, kids: seq<string>)
    requires WellFormed(h) && |kids| > 0 && NoDuplicates(kids)
    requires forall c :: c in kids ==> IsChildOf(parent, c)
    ensures WellFormed(Put(h, parent, kids))
    ensures Get(Put(h, parent, kids), parent) == Some(kids)
    ensures forall p :: p != parent ==> Get(Put(h, parent, kids), p) == Get(h, p)
    ensures forall p, c :: Records(Put(h, parent, kids), p, c) <==> (p == parent && c in kids) || (p != parent && Records(h, p, c))
  {
    KeysPut(h, parent, kids);
    PutUnique(h, parent, kids);
    GetPutEverywhere(h, parent, kids);
  }

  /**
   * One step of the inner loop: a missing parent gets a list holding the child
   * (the new empty list followed by the append), and a present parent gets the
   * child appended unless it is listed already.
   */
  function AddChild(h: Tree, parent: string, child: string): (r: Tree)
    requires WellFormed(h) && IsChildOf(parent, child)
    ensures WellFormed(r)
    ensures Records(r, parent, child)
    ensures forall p, c :: Records(h, p, c) ==> Records(r, p, c)
    ensures forall p, c :: Records(r, p, c) ==> Records(h, p, c) || (p == parent && c == child)
  {
    var listed := Listed(h, parent);
    if child in listed then h
    else
      AppendChild(h, parent, child);
      Put(h, parent, listed + [child])
  }

  /** The children listed under `parent`, none when it has no entry. */
  function Listed(h: Tree, parent: string): seq<string>
  {
    if parent in Keys(h) then Get(h, parent).value else []
  }

  /** Appending an unlisted child keeps the tree well formed and adds exactly that one pair. */
  lemma AppendChild(h: Tree, parent: string, child: string)
    requires WellFormed(h) && IsChildOf(parent, child) && child !in Listed(h, parent)
    ensures WellFormed(Put(h, parent, Listed(h, parent) + [child]))
    ensures forall p, c :: Records(Put(h, parent, Listed(h, parent) + [child]), p, c) <==>
      Records(h, p, c) || (p == parent && c == child)
  {
    var kids := Listed(h, parent) + [child];
    assert forall c :: c in kids <==> c in Listed(h, parent) || c == child;
    PutWellFormed(h, parent, kids);
  }

  /** The prefix path with one more segment is a child of the prefix path. */
  lemma PrefixChild(parts: seq<string>, i: nat)
    requires i < |parts|
    requires forall k :: 0 <= k < |parts| ==> Sep !in parts[k]
    ensures IsChildOf(PathPrefix(parts, i), PathPrefix(parts, i + 1))
  {
    if i > 0 {
      assert parts[..i + 1] == parts[..i] + [parts[i]];
      JoinSnoc(parts[..i], parts[i], Sep);
      var p := PathPrefix(parts, i);
      var c := PathPrefix(parts, i + 1);
      assert c == p + [Sep] + parts[i];
      assert c[|p| + 1..] == parts[i];
    }
  }

  /** Every pair of `h` is still recorded in `r`. */
  ghost predicate Grows(h: Tree, r: Tree)
  {
    forall p, c :: Records(h, p, c) ==> Records(r, p, c)
  }

  /** The chain of prefixes of `parts` from segment `i` on is recorded. */
  predicate ChainFrom(r: Tree, parts: seq<string>, i: nat)
    requires i <= |parts|
  {
    forall k :: i <= k < |parts| ==> Records(r, PathPrefix(parts, k), PathPrefix(parts, k + 1))
  }

  /** Every pair of `r` not in `h` is a link of the chain of `parts` from segment `i` on. */
  ghost predicate AddsOnlyChain(h: Tree, r: Tree, parts: seq<string>, i: nat)
    requires i <= |parts|
  {
    forall p, c :: Records(r, p, c) ==>
      Records(h, p, c) || exists k :: i <= k < |parts| && p == PathPrefix(parts, k) && c == PathPrefix(parts, k + 1)
  }

  /** The inner loop of `get_group_hierarchy` for one group, from segment `i` on. */
  function AddChain(h: Tree, parts: seq<string>, i: nat): (r: Tree)
    requires WellFormed(h) && i <= |parts|
    requires forall k :: 0 <= k < |parts| ==> Sep !in parts[k]
    ensures WellFormed(r)
    ensures ChainFrom(r, parts, i)
    ensures Grows(h, r)
    ensures AddsOnlyChain(h, r, parts, i)
    decreases |parts| - i
  {
    if i == |parts| then h
    else
      PrefixChild(parts, i);
      AddChain(AddChild(h, PathPrefix(parts, i), PathPrefix(parts, i + 1)), parts, i + 1)
  }

  /** `c` is the prefix one segment longer than the prefix `p` of group `g`. */
  predicate InChain(g: string, p: string, c: string)
  {
    exists k :: 0 <= k < |Split(g, Sep)| && p == PathPrefix(Split(g, Sep), k) && c == PathPrefix(Split(g, Sep), k + 1)
  }

  /** Every group's chain of prefixes is recorded, parent by parent. */
  predicate ChainsRecorded(h: Tree, groups: seq<string>)
  {
    forall g, k :: g in groups && 0 <= k < |Split(g, Sep)| ==>
      Records(h, PathPrefix(Split(g, Sep), k), PathPrefix(Split(g, Sep), k + 1))
  }

  /** Every recorded pair belongs to the chain of some group. */
  ghost predicate OnlyChains(h: Tree, groups: seq<string>)
  {
    forall p, c :: Records(h, p, c) ==> exists g :: g in groups && InChain(g, p, c)
  }

  /** The outer loop over the groups in the given order. */
  function Build(groups: seq<string>): (r: Tree)
    ensures WellFormed(r)
  {
    if |groups| == 0 then []
    else AddChain(Build(groups[..|groups| - 1]), Split(groups[|groups| - 1], Sep), 0)
  }

  /** After the outer loop, the recorded pairs are exactly the links of the groups' chains. */
  lemma {:induction false} BuildRecordsChains(groups: seq<string>)
    ensures ChainsRecorded(Build(groups), groups)
    ensures OnlyChains(Build(groups), groups)
  {
    if |groups| > 0 {
      var init := groups[..|groups| - 1];
      var last := groups[|groups| - 1];
      BuildRecordsChains(init);
      assert groups == init + [last];
      BuildStep(Build(init), Build(groups), init, last);
    }
  }

  /** One more group keeps both directions: its chain is recorded, and every new pair is on it. */
  lemma BuildStep(prev: Tree, r: Tree, init: seq<string>, last: string)
    requires ChainsRecorded(prev, init) && OnlyChains(prev, init)
    requires Grows(prev, r) && ChainFrom(r, Split(last, Sep), 0) && AddsOnlyChain(prev, r, Split(last, Sep), 0)
    ensures ChainsRecorded(r, init + [last])
    ensures OnlyChains(r, init + [last])
  {
    forall g, k | g in init + [last] && 0 <= k < |Split(g, Sep)|
      ensures Records(r, PathPrefix(Split(g, Sep), k), PathPrefix(Split(g, Sep), k + 1))
    {
      if g in init {
        assert Records(prev, PathPrefix(Split(g, Sep), k), PathPrefix(Split(g, Sep), k + 1));
      } else {
        assert g == last;
      }
    }
    forall p, c | Records(r, p, c) ensures exists g :: g in init + [last] && InChain(g, p, c) {
      if Records(prev, p, c) {
        var g :| g in init && InChain(g, p, c);
        assert g in init + [last];
      } else {
        assert InChain(last, p, c);
        assert last in init + [last];
      }
    }
  }

  /**
   * The hierarchy of a set of groups, visited in sorted order: a pair is
   * recorded exactly when the child is a prefix of some group one segment
   * longer than the parent, each child once under its parent, top-level
   * segments under the root `""`, and no parent without children.
   */
  method HierarchyOf(groups: set<string>) returns (h: Tree)
    ensures WellFormed(h)
    ensures forall p, c :: Records(h, p, c) <==> exists g :: g in groups && InChain(g, p, c)
    ensures forall g :: g in groups ==> Records(h, "", Split(g, Sep)[0])
  {
    var sorted := SortStrings(groups);
    h := Build(sorted);
    BuildRecordsChains(sorted);
    forall p, c | exists g :: g in groups && InChain(g, p, c) ensures Records(h, p, c) {
      var g :| g in groups && InChain(g, p, c);
      assert g in sorted;
    }
    forall g | g in groups ensures Records(h, "", Split(g, Sep)[0]) {
      var parts := Split(g, Sep);
      assert g in sorted;
      assert parts[..1] == [parts[0]];
      assert PathPrefix(parts, 0) == "" && PathPrefix(parts, 1) == parts[0];
      assert Records(h, PathPrefix(parts, 0), PathPrefix(parts, 1));
    }
  }

  /**
   * `get_group_hierarchy`: the groups are parsed first when none are known,
   * then the hierarchy of the resulting group set is built.
   */
  method GetGroupHierarchy(st: ParseState, content: string) returns (r: ParseState, h: Tree)
    ensures r == GroupsFirst(st, content)
    ensures |st.groups| > 0 ==> r == st
    ensures WellFormed(h)
    ensures forall p, c :: Records(h, p, c) <==> exists g :: g in r.groups && InChain(g, p, c)
    ensures forall g :: g in r.groups ==> Records(h, "", Split(g, Sep)[0])
  {
    r := GroupsFirst(st, content);
    h := HierarchyOf(r.groups);
  }
}
