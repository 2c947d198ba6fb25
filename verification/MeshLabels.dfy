/**
 Labels kept as blocks of consecutive numbers: building the blocks of a list of labels, and
 expanding blocks into a list again. The list is the one qsort leaves; the two loops do not
 depend on its being sorted.
 */
module MeshLabels {

  // The identifiers of a block: upward, or downward when its second number is not greater.
  function BlockIds(first: int, last: int): (ids: seq<int>)
    ensures |ids| == (if first < last then last - first else first - last) + 1
    ensures forall i | 0 <= i < |ids| :: ids[i] == if first < last then first + i else first - i
    decreases if first < last then last - first else first - last
  {
    if first == last then [first]
    else if first < last then
      if first + 1 == last then [first, last] else [first] + BlockIds(first + 1, last)
    else [first] + BlockIds(first - 1, last)
  }

  // The identifiers of pairs of numbers.
  function Expanded(blocks: seq<int>): seq<int>
    requires |blocks| % 2 == 0
  {
    if blocks == [] then []
    else
      var n := |blocks|;
      Expanded(blocks[..n - 2]) + BlockIds(blocks[n - 2], blocks[n - 1])
  }

  lemma ExpandedMore(blocks: seq<int>, first: int, last: int)
    requires |blocks| % 2 == 0
    ensures Expanded(blocks + [first, last]) == Expanded(blocks) + BlockIds(first, last)
  {
    var bs := blocks + [first, last];
    assert bs[..|bs| - 2] == blocks;
  }

  // The identifiers, or their indices from 0.
  function Decremented(ids: seq<int>, decrement: bool): (r: seq<int>)
    ensures |r| == |ids| && forall i | 0 <= i < |ids| :: r[i] == if decrement then ids[i] - 1 else ids[i]
  {
    seq(|ids|, i requires 0 <= i < |ids| => if decrement then ids[i] - 1 else ids[i])
  }

  lemma {:induction false} ExpandedPrefix(blocks: seq<int>, i: nat)
    requires |blocks| % 2 == 0 && i % 2 == 0 && i <= |blocks|
    ensures Expanded(blocks[..i]) <= Expanded(blocks)
    decreases |blocks|
  {
    if i < |blocks| {
      var n := |blocks|;
      ExpandedPrefix(blocks[..n - 2], i);
      assert blocks[..n - 2][..i] == blocks[..i];
    } else {
      assert blocks[..i] == blocks;
    }
  }

  // A list with the first k identifiers written from place `at' on.
  function Draft(was: seq<int>, at: nat, ids: seq<int>, k: nat): (r: seq<int>)
    requires k <= |ids| && at + |ids| <= |was|
    ensures |r| == |was|
  {
    was[..at] + ids[..k] + was[at + k..]
  }

  lemma DraftBegins(was: seq<int>, at: nat, ids: seq<int>)
    requires at + |ids| <= |was|
    ensures Draft(was, at, ids, 0) == was
  {
  }

  lemma DraftGrows(was: seq<int>, at: nat, ids: seq<int>, k: nat)
    requires k < |ids| && at + |ids| <= |was|
    ensures Draft(was, at, ids, k)[at + k := ids[k]] == Draft(was, at, ids, k + 1)
  {
  }

  lemma DraftEnds(was: seq<int>, at: nat, ids: seq<int>)
    requires at + |ids| <= |was|
    ensures
      var (r, n) := (Draft(was, at, ids, |ids|), at + |ids|);
      r[..n] == was[..at] + ids && r[n..] == was[n..]
  {
  }

  // One block, from place `at' of the list on.
  method ExpandBlock(first: int, last: int, list: array<int>, at: nat, decrement: bool) returns (next: nat)
    requires at + |BlockIds(first, last)| <= list.Length
    modifies list
    ensures next == at + |BlockIds(first, last)|
    ensures list[..next] == old(list[..at]) + Decremented(BlockIds(first, last), decrement)
    ensures list[next..] == old(list[next..])
  {
    hide BlockIds, Decremented, Draft;
    ghost var ids, was := Decremented(BlockIds(first, last), decrement), list[..];
    var increment, start, stop := 1, first, last;
    if first >= last {
      increment, start, stop := -1, last, first;
    }
    var ident := if decrement then first - 1 else first;
    next := at;
    var j := start;
    DraftBegins(was, at, ids);
    while j <= stop
      invariant start <= j <= stop + 1 && next == at + (j - start)
      invariant ident == (if decrement then first - 1 else first) + if first < last then j - start else start - j
      invariant list[..] == Draft(was, at, ids, j - start)
    {
      DraftGrows(was, at, ids, j - start);
      ghost var before := list[..];
      list[next] := ident;
      assert list[..] == before[next := ident];
      ident := ident + increment;
      next := next + 1;
      j := j + 1;
    }
    DraftEnds(was, at, ids);
    assert list[..next] == list[..][..next] && list[next..] == list[..][next..];
  }

  lemma DecrementedJoin(a: seq<int>, b: seq<int>, decrement: bool)
    ensures Decremented(a + b, decrement) == Decremented(a, decrement) + Decremented(b, decrement)
  {
  }

  // mc_blocks_to_list
  method BlocksToList(blocks: seq<int>, list: array<int>, decrement: bool) returns (listCount: nat)
    requires |blocks| % 2 == 0 && |Expanded(blocks)| <= list.Length
    modifies list
    ensures listCount == |Expanded(blocks)|
    ensures list[..listCount] == Decremented(Expanded(blocks), decrement)
    ensures list[listCount..] == old(list[listCount..])
  {
    hide BlockIds, Decremented, Expanded;
    ghost var was := list[..];
    NothingExpanded();
    listCount := 0;
    DecrementedNothing(decrement);
    assert blocks[..0] == [];
    var i := 0;
    while i < |blocks|
      invariant i <= |blocks| && i % 2 == 0
      invariant listCount == |Expanded(blocks[..i])| <= list.Length
      invariant list[..listCount] == Decremented(Expanded(blocks[..i]), decrement)
      invariant list[listCount..] == was[listCount..]
    {
      ghost var before := list[..];
      ExpandedPrefix(blocks, i + 2);
      assert blocks[..i + 2] == blocks[..i] + [blocks[i], blocks[i + 1]];
      ExpandedMore(blocks[..i], blocks[i], blocks[i + 1]);
      DecrementedJoin(Expanded(blocks[..i]), BlockIds(blocks[i], blocks[i + 1]), decrement);
      ghost var at := listCount;
      listCount := ExpandBlock(blocks[i], blocks[i + 1], list, listCount, decrement);
      Later(before, was, at, listCount);
      i := i + 2;
    }
    assert blocks[..i] == blocks;
  }

  lemma Later(s: seq<int>, t: seq<int>, at: nat, next: nat)
    requires at <= next <= |s| == |t| && s[at..] == t[at..]
    ensures s[next..] == t[next..]
  {
    assert s[at..][next - at..] == s[next..] && t[at..][next - at..] == t[next..];
  }

  lemma DecrementedNothing(decrement: bool)
    ensures Decremented([], decrement) == []
  {
  }

  // ----- what blocks are to be -----

  function FirstOf(blocks: seq<int>, k: nat): int
    requires 2 * k + 1 < |blocks|
  {
    blocks[2 * k]
  }

  function LastOf(blocks: seq<int>, k: nat): int
    requires 2 * k + 1 < |blocks|
  {
    blocks[2 * k + 1]
  }

  ghost predicate Upward(blocks: seq<int>) {
    forall k: nat | 2 * k + 1 < |blocks| :: FirstOf(blocks, k) <= LastOf(blocks, k)
  }

  // No block ends one below where the next begins: two such blocks would be one.
  ghost predicate Apart(blocks: seq<int>) {
    forall k: nat | 2 * k + 3 < |blocks| :: LastOf(blocks, k) + 1 != FirstOf(blocks, k + 1)
  }

  lemma OneMore(blocks: seq<int>, first: int, last: int)
    requires |blocks| % 2 == 0 && Upward(blocks) && Apart(blocks) && first <= last
    requires blocks != [] ==> blocks[|blocks| - 1] + 1 != first
    ensures Upward(blocks + [first, last]) && Apart(blocks + [first, last])
  {
    var bs := blocks + [first, last];
    forall k: nat | 2 * k + 1 < |bs|
      ensures FirstOf(bs, k) <= LastOf(bs, k)
    {
      if 2 * k + 1 < |blocks| {
        assert FirstOf(bs, k) == FirstOf(blocks, k) && LastOf(bs, k) == LastOf(blocks, k);
      }
    }
    forall k: nat | 2 * k + 3 < |bs|
      ensures LastOf(bs, k) + 1 != FirstOf(bs, k + 1)
    {
      assert LastOf(bs, k) == LastOf(blocks, k);
      if 2 * k + 3 < |blocks| {
        assert FirstOf(bs, k + 1) == FirstOf(blocks, k + 1);
      }
    }
  }

  lemma OneLess(blocks: seq<int>)
    requires |blocks| % 2 == 0 && blocks != [] && Upward(blocks) && Apart(blocks)
    ensures
      var n := |blocks| - 2;
      && Upward(blocks[..n]) && Apart(blocks[..n]) && blocks[n] <= blocks[n + 1]
      && (n > 0 ==> blocks[n - 1] + 1 != blocks[n])
  {
    var n := |blocks| - 2;
    var bs := blocks[..n];
    assert FirstOf(blocks, n / 2) <= LastOf(blocks, n / 2);
    forall k: nat | 2 * k + 1 < n
      ensures FirstOf(bs, k) <= LastOf(bs, k)
    {
      assert FirstOf(bs, k) == FirstOf(blocks, k) && LastOf(bs, k) == LastOf(blocks, k);
    }
    forall k: nat | 2 * k + 3 < n
      ensures LastOf(bs, k) + 1 != FirstOf(bs, k + 1)
    {
      assert LastOf(bs, k) == LastOf(blocks, k) && FirstOf(bs, k + 1) == FirstOf(blocks, k + 1);
    }
    if n > 0 {
      assert LastOf(blocks, n / 2 - 1) == blocks[n - 1] && FirstOf(blocks, n / 2) == blocks[n];
    }
  }

  // The last identifiers of blocks.
  lemma LastExpanded(blocks: seq<int>)
    requires |blocks| % 2 == 0 && blocks != [] && blocks[|blocks| - 2] <= blocks[|blocks| - 1]
    ensures
      var (n, ids) := (|blocks| - 2, Expanded(blocks));
      var m := |Expanded(blocks[..n])|;
      && |ids| == m + 1 + blocks[n + 1] - blocks[n] && ids[..m] == Expanded(blocks[..n])
      && forall i | m <= i < |ids| :: ids[i] == blocks[n] + i - m
  {
    hide BlockIds;
  }

  lemma EndExpanded(blocks: seq<int>)
    requires |blocks| % 2 == 0 && blocks != [] && Upward(blocks) && Apart(blocks)
    ensures
      var ids := Expanded(blocks);
      ids != [] && ids[|ids| - 1] == blocks[|blocks| - 1]
  {
    OneLess(blocks);
    hide Upward, Apart, Expanded;
    LastExpanded(blocks);
  }

  // What is before the last block is not one below it.
  lemma BeforeLast(blocks: seq<int>)
    requires |blocks| % 2 == 0 && blocks != [] && Upward(blocks) && Apart(blocks)
    ensures
      var (ids, k) := (Expanded(blocks), |Expanded(blocks[..|blocks| - 2])|);
      0 < k <= |ids| ==> ids[k - 1] + 1 != blocks[|blocks| - 2]
  {
    hide Upward, Apart, Expanded;
    OneLess(blocks);
    LastExpanded(blocks);
    var bs, ids := blocks[..|blocks| - 2], Expanded(blocks);
    if bs == [] {
      NothingExpanded();
    } else {
      EndExpanded(bs);
      assert ids[..|Expanded(bs)|][|Expanded(bs)| - 1] == ids[|Expanded(bs)| - 1];
    }
  }

  // The last block of one list does not begin above that of the other: the block before it would
  // end one below.
  lemma NoLaterStart(a: seq<int>, b: seq<int>)
    requires |a| % 2 == 0 && |b| % 2 == 0 && Upward(a) && Apart(a) && Upward(b) && Apart(b)
    requires a != [] && b != [] && Expanded(a) == Expanded(b)
    ensures a[|a| - 1] == b[|b| - 1] && a[|a| - 2] <= b[|b| - 2]
  {
    hide Upward, Apart, Expanded;
    OneLess(a);
    OneLess(b);
    EndExpanded(a);
    EndExpanded(b);
    LastExpanded(a);
    LastExpanded(b);
    BeforeLast(a);
  }

  lemma NothingExpanded()
    ensures Expanded([]) == []
  {
  }

  // A list has only one list of blocks that go upward and do not join.
  lemma {:induction false} BlocksUnique(a: seq<int>, b: seq<int>)
    requires |a| % 2 == 0 && |b| % 2 == 0 && Upward(a) && Apart(a) && Upward(b) && Apart(b)
    requires Expanded(a) == Expanded(b)
    ensures a == b
    decreases |a|
  {
    hide Expanded, Upward, Apart;
    NothingExpanded();
    if a != [] && b != [] {
      NoLaterStart(a, b);
      NoLaterStart(b, a);
      OneLess(a);
      OneLess(b);
      LastExpanded(a);
      LastExpanded(b);
      var a', b' := a[..|a| - 2], b[..|b| - 2];
      assert |Expanded(a')| == |Expanded(b')|;
      BlocksUnique(a', b');
      assert a == a' + [a[|a| - 2], a[|a| - 1]] && b == b' + [b[|b| - 2], b[|b| - 1]];
    } else if a != [] {
      OneLess(a);
      LastExpanded(a);
    } else if b != [] {
      OneLess(b);
      LastExpanded(b);
    }
  }

  // ----- making blocks -----

  predicate BreaksAt(labels: seq<int>, i: int)
    requires 0 < i < |labels|
  {
    labels[i] != labels[i - 1] + 1
  }

  // Where blocks begin after the first, up to place k: at labels that do not follow the one before.
  function Breaks(labels: seq<int>, k: nat): set<int>
    requires k < |labels|
  {
    set i: int | 0 < i <= k && BreaksAt(labels, i)
  }

  lemma NoBreaks(labels: seq<int>)
    requires labels != []
    ensures |Breaks(labels, 0)| == 0
  {
    assert Breaks(labels, 0) == {};
  }

  lemma NextBreak(labels: seq<int>, k: nat)
    requires k + 1 < |labels|
    ensures |Breaks(labels, k + 1)| == |Breaks(labels, k)| + if labels[k + 1] != labels[k] + 1 then 1 else 0
  {
    BreaksNext(labels, k);
    hide Breaks;
    if BreaksAt(labels, k + 1) {
      OneMember(Breaks(labels, k), k + 1);
    }
  }

  lemma BreaksNext(labels: seq<int>, k: nat)
    requires k + 1 < |labels|
    ensures k + 1 !in Breaks(labels, k)
    ensures Breaks(labels, k + 1) == if BreaksAt(labels, k + 1) then Breaks(labels, k) + {k + 1} else Breaks(labels, k)
  {
    hide BreaksAt;
  }

  lemma OneMember(s: set<int>, x: int)
    requires x !in s
    ensures |s + {x}| == |s| + 1
  {
  }

  lemma {:induction false} BreaksGrow(labels: seq<int>, j: nat, k: nat)
    requires j <= k < |labels|
    ensures |Breaks(labels, j)| <= |Breaks(labels, k)|
    decreases k - j
  {
    hide Breaks;
    if j < k {
      NextBreak(labels, k - 1);
      BreaksGrow(labels, j, k - 1);
    }
  }

  // All of them.
  lemma BreaksAre(labels: seq<int>)
    requires labels != []
    ensures Breaks(labels, |labels| - 1) == set i: int | 0 < i < |labels| && BreaksAt(labels, i)
  {
  }

  // The count of mc_load_node_labels and of mc_get_node_label_info.
  method CountBlocks(labels: seq<int>) returns (blockQty: nat)
    requires |labels| >= 2
    ensures blockQty == 1 + |set i: int | 0 < i < |labels| && BreaksAt(labels, i)|
  {
    hide Breaks;
    NoBreaks(labels);
    BreaksAre(labels);
    blockQty := 1;
    for i := 0 to |labels| - 2
      invariant blockQty == 1 + |Breaks(labels, i)|
    {
      NextBreak(labels, i);
      if labels[i + 1] != labels[i] + 1 {
        blockQty := blockQty + 1;
      }
    }
    NextBreak(labels, |labels| - 2);
    if labels[|labels| - 1] != labels[|labels| - 2] + 1 {
      blockQty := blockQty + 1;
    }
  }

  // Of the first k labels, the blocks stored hold those before the run from first to last, which
  // they do not join.
  ghost predicate Reading(stored: seq<int>, first: int, last: int, labels: seq<int>, k: nat)
    requires |stored| % 2 == 0
  {
    && 1 <= k <= |labels| && first <= last == labels[k - 1] && Expanded(stored) + BlockIds(first, last) == labels[..k]
    && Upward(stored) && Apart(stored) && (stored != [] ==> stored[|stored| - 1] + 1 != first)
  }

  lemma RunBegins(labels: seq<int>)
    requires labels != []
    ensures Reading([], labels[0], labels[0], labels, 1)
  {
    assert labels[..1] == [labels[0]];
  }

  lemma RunGrows(stored: seq<int>, first: int, last: int, labels: seq<int>, k: nat)
    requires |stored| % 2 == 0 && Reading(stored, first, last, labels, k) && k < |labels| && labels[k] == last + 1
    ensures Reading(stored, first, last + 1, labels, k + 1)
  {
    hide Expanded, Upward, Apart;
    assert BlockIds(first, last + 1) == BlockIds(first, last) + [last + 1];
    assert labels[..k + 1] == labels[..k] + [labels[k]];
  }

  lemma RunEnds(stored: seq<int>, first: int, last: int, labels: seq<int>, k: nat)
    requires |stored| % 2 == 0 && Reading(stored, first, last, labels, k) && k < |labels| && labels[k] != last + 1
    ensures Reading(stored + [first, last], labels[k], labels[k], labels, k + 1)
  {
    hide Expanded, Upward, Apart;
    OneMore(stored, first, last);
    ExpandedMore(stored, first, last);
    assert BlockIds(labels[k], labels[k]) == [labels[k]];
    assert labels[..k + 1] == labels[..k] + [labels[k]];
  }

  // Stored as they are to be: these are the blocks of the labels.
  ghost predicate AreBlocks(blocks: seq<int>, labels: seq<int>) {
    |blocks| % 2 == 0 && Expanded(blocks) == labels && Upward(blocks) && Apart(blocks)
  }

  lemma AllRead(stored: seq<int>, first: int, last: int, labels: seq<int>)
    requires |stored| % 2 == 0 && Reading(stored, first, last, labels, |labels|)
    ensures AreBlocks(stored + [first, last], labels)
  {
    hide Expanded, Upward, Apart, BlockIds;
    OneMore(stored, first, last);
    ExpandedMore(stored, first, last);
    assert labels[..|labels|] == labels;
  }

  // One pair of numbers.
  method StoreBlock(blocks: array<int>, index: nat, first: int, last: int)
    requires index + 2 <= blocks.Length
    modifies blocks
    ensures blocks[..index + 2] == old(blocks[..index]) + [first, last]
  {
    blocks[index], blocks[index + 1] := first, last;
  }

  // mc_load_node_labels: the blocks, in an array that they fill exactly.
  method MakeBlocks(labels: seq<int>) returns (blocks: array<int>, blockQty: nat)
    requires |labels| >= 2
    ensures blockQty == 1 + |set i: int | 0 < i < |labels| && BreaksAt(labels, i)|
    ensures fresh(blocks) && blocks.Length == 2 * blockQty && AreBlocks(blocks[..], labels)
  {
    hide Reading, AreBlocks, Breaks;
    blockQty := CountBlocks(labels);
    BreaksAre(labels);
    blocks := new int[blockQty * 2];
    var index: nat := 0;
    var first, last := labels[0], labels[0];
    NoBreaks(labels);
    RunBegins(labels);
    assert blocks[..0] == [];
    var n := |labels|;
    for i := 0 to n - 2
      invariant index == 2 * |Breaks(labels, i)| && index % 2 == 0 && index + 2 <= blocks.Length
      invariant last == labels[i] && Reading(blocks[..index], first, last, labels, i + 1)
    {
      NextBreak(labels, i);
      BreaksGrow(labels, i + 1, n - 1);
      if last + 1 != labels[i + 1] {
        RunEnds(blocks[..index], first, last, labels, i + 1);
        StoreBlock(blocks, index, first, last);
        index := index + 2;
        first, last := labels[i + 1], labels[i + 1];
      } else {
        RunGrows(blocks[..index], first, last, labels, i + 1);
        last := last + 1;
      }
    }
    NextBreak(labels, n - 2);
    FinishBlocks(labels, blocks, index, first, last);
  }

  // The last label ends the last run, or is a run of its own.
  method FinishBlocks(labels: seq<int>, blocks: array<int>, index: nat, first: int, last: int)
    requires |labels| >= 2 && index % 2 == 0 && last == labels[|labels| - 2]
    requires blocks.Length == index + if labels[|labels| - 1] == last + 1 then 2 else 4
    requires Reading(blocks[..index], first, last, labels, |labels| - 1)
    modifies blocks
    ensures AreBlocks(blocks[..], labels)
  {
    hide Reading, AreBlocks;
    var n := |labels|;
    if labels[n - 1] == last + 1 {
      RunGrows(blocks[..index], first, last, labels, n - 1);
      AllRead(blocks[..index], first, last + 1, labels);
      StoreBlock(blocks, index, first, last + 1);
    } else {
      RunEnds(blocks[..index], first, last, labels, n - 1);
      AllRead(blocks[..index] + [first, last], labels[n - 1], labels[n - 1], labels);
      StoreBlock(blocks, index, first, last);
      StoreBlock(blocks, index + 2, labels[n - 1], labels[n - 1]);
    }
    assert blocks[..blocks.Length] == blocks[..];
  }
}
