/**
 The ids defined so far for a class of mesh objects, kept as a list of ranges: what inserting
 a range means for the set of ids, and the list itself, doubly linked and changed in place.
 */
module MeshRanges {
  import opened Lists

  datatype Range = Range(start: int, stop: int)

  datatype Status = Inserted | Merged | Collapsed | Overlapped

  predicate Has(rs: seq<Range>, id: int) {
    exists k | 0 <= k < |rs| :: rs[k].start <= id <= rs[k].stop
  }

  // No range is empty, and between two ranges at least one id is missing.
  predicate Canonical(rs: seq<Range>) {
    && (forall k | 0 <= k < |rs| :: rs[k].start <= rs[k].stop)
    && (forall j, k | 0 <= j < k < |rs| :: rs[j].stop + 1 < rs[k].start)
  }

  // OVERLAP
  predicate Overlap(r: Range, start: int, stop: int) {
    !(stop < r.start || start > r.stop)
  }

  function Total(rs: seq<Range>): int {
    if rs == [] then 0 else rs[0].stop - rs[0].start + 1 + Total(rs[1..])
  }

  // ----- what insert_range does to the list, from range i on -----

  function InsertFrom(rs: seq<Range>, i: nat, start: int, stop: int): (r: (Status, seq<Range>))
    requires i <= |rs|
    decreases |rs| - i
  {
    var joinsBefore := i > 0 && rs[i - 1].stop + 1 == start;
    if i == |rs| then
      if joinsBefore then (Merged, rs[i - 1 := Range(rs[i - 1].start, stop)])
      else (Inserted, rs + [Range(start, stop)])
    else if Overlap(rs[i], start, stop) then (Overlapped, rs)
    else if rs[i].start < start then InsertFrom(rs, i + 1, start, stop)
    else if rs[i].start - 1 == stop then
      if joinsBefore then (Collapsed, rs[..i - 1] + [Range(rs[i - 1].start, rs[i].stop)] + rs[i + 1..])
      else (Merged, rs[i := Range(start, rs[i].stop)])
    else if joinsBefore then (Merged, rs[i - 1 := Range(rs[i - 1].start, stop)])
    else (Inserted, rs[..i] + [Range(start, stop)] + rs[i..])
  }

  function Insert(rs: seq<Range>, start: int, stop: int): (Status, seq<Range>) {
    InsertFrom(rs, 0, start, stop)
  }

  // ----- and what it means for the ids -----

  ghost predicate IsUnion(rs: seq<Range>, start: int, stop: int, rs': seq<Range>) {
    Canonical(rs') && forall id :: Has(rs', id) <==> Has(rs, id) || start <= id <= stop
  }

  ghost predicate Meets(rs: seq<Range>, start: int, stop: int) {
    exists id :: Has(rs, id) && start <= id <= stop
  }

  // The new range is joined to a range before it, or after it, or both, when there is one
  // next to it.
  predicate StatusFor(rs: seq<Range>, start: int, stop: int, status: Status) {
    match status
    case Inserted => !Has(rs, start - 1) && !Has(rs, stop + 1)
    case Merged => Has(rs, start - 1) != Has(rs, stop + 1)
    case Collapsed => Has(rs, start - 1) && Has(rs, stop + 1)
    case Overlapped => false
  }

  // Inserting is the union of sets, on canonical lists; a range that meets what is there
  // changes nothing.
  lemma {:induction false} InsertFromIs(rs: seq<Range>, i: nat, start: int, stop: int)
    requires Canonical(rs) && start <= stop && i <= |rs|
    requires forall k | 0 <= k < i :: rs[k].stop < start
    ensures
      var (status, rs') := InsertFrom(rs, i, start, stop);
      if status.Overlapped? then Meets(rs, start, stop) && rs' == rs
      else !Meets(rs, start, stop) && IsUnion(rs, start, stop, rs') && StatusFor(rs, start, stop, status)
    decreases |rs| - i
  {
    if i < |rs| && Overlap(rs[i], start, stop) {
      var id := if rs[i].start <= start then start else rs[i].start;
      assert Has(rs, id) && start <= id <= stop;
    } else if i < |rs| && rs[i].start < start {
      InsertFromIs(rs, i + 1, start, stop);
    } else {
      PlacedIs(rs, i, start, stop);
    }
  }

  // The place for the new range is just before range i.
  lemma PlacedIs(rs: seq<Range>, i: nat, start: int, stop: int)
    requires Canonical(rs) && start <= stop && i <= |rs|
    requires forall k | 0 <= k < i :: rs[k].stop < start
    requires i < |rs| ==> !Overlap(rs[i], start, stop) && start <= rs[i].start
    ensures
      var (status, rs') := InsertFrom(rs, i, start, stop);
      !status.Overlapped? && !Meets(rs, start, stop) && IsUnion(rs, start, stop, rs') && StatusFor(rs, start, stop, status)
  {
    forall id | Has(rs, id)
      ensures id < start || stop < id
      ensures id == start - 1 ==> i > 0 && rs[i - 1].stop == id
      ensures id == stop + 1 ==> i < |rs| && rs[i].start == id
    {
      var k :| 0 <= k < |rs| && rs[k].start <= id <= rs[k].stop;
      if k < i - 1 {
        assert rs[k].stop + 1 < rs[i - 1].start;
      } else if k > i {
        assert rs[i].stop + 1 < rs[k].start;
      }
    }
    assert i > 0 && rs[i - 1].stop + 1 == start ==> Has(rs, start - 1);
    assert i < |rs| && rs[i].start - 1 == stop ==> Has(rs, stop + 1);
    PlacedUnion(rs, i, start, stop);
  }

  // One range in place of those from a to b.
  function Splice(rs: seq<Range>, a: nat, b: nat, r: Range): seq<Range>
    requires a <= b <= |rs|
  {
    rs[..a] + [r] + rs[b..]
  }

  lemma SpliceHas(rs: seq<Range>, a: nat, b: nat, r: Range, id: int)
    requires a <= b <= |rs|
    ensures Has(Splice(rs, a, b, r), id) <==>
      r.start <= id <= r.stop || exists k | 0 <= k < |rs| && (k < a || b <= k) :: rs[k].start <= id <= rs[k].stop
  {
    var rs' := Splice(rs, a, b, r);
    if r.start <= id <= r.stop {
      assert rs'[a] == r;
    }
    if k :| 0 <= k < |rs| && (k < a || b <= k) && rs[k].start <= id <= rs[k].stop {
      assert rs'[if k < a then k else k - b + a + 1] == rs[k];
    }
    if Has(rs', id) {
      var k :| 0 <= k < |rs'| && rs'[k].start <= id <= rs'[k].stop;
      if k != a {
        assert rs'[k] == rs[if k < a then k else k - a - 1 + b];
      }
    }
  }

  lemma SpliceCanonical(rs: seq<Range>, a: nat, b: nat, r: Range)
    requires Canonical(rs) && a <= b <= |rs| && r.start <= r.stop
    requires a > 0 ==> rs[a - 1].stop + 1 < r.start
    requires b < |rs| ==> r.stop + 1 < rs[b].start
    ensures Canonical(Splice(rs, a, b, r))
  {
    var rs' := Splice(rs, a, b, r);
    forall j, k | 0 <= j < k < |rs'|
      ensures rs'[j].stop + 1 < rs'[k].start
    {
      if j < a {
        assert rs'[j] == rs[j];
      }
      if k > a {
        assert rs'[k] == rs[k - a - 1 + b];
      }
    }
  }

  // The ranges that the new one joins, just before range i: from a to b.
  predicate Joins(rs: seq<Range>, i: nat, start: int, stop: int, a: nat, b: nat, joined: Range) {
    && a <= i <= b <= |rs|
    && (if i > 0 && rs[i - 1].stop + 1 == start then a == i - 1 && joined.start == rs[i - 1].start
        else a == i && joined.start == start)
    && (if i < |rs| && rs[i].start - 1 == stop then b == i + 1 && joined.stop == rs[i].stop
        else b == i && joined.stop == stop)
  }

  lemma PlacedSplice(rs: seq<Range>, i: nat, start: int, stop: int, a: nat, b: nat, joined: Range)
    requires start <= stop && i <= |rs| && Joins(rs, i, start, stop, a, b, joined)
    requires i < |rs| ==> stop < rs[i].start
    ensures InsertFrom(rs, i, start, stop).1 == Splice(rs, a, b, joined)
  {
  }

  lemma JoinedCanonical(rs: seq<Range>, i: nat, start: int, stop: int, a: nat, b: nat, joined: Range)
    requires Canonical(rs) && start <= stop && i <= |rs| && Joins(rs, i, start, stop, a, b, joined)
    requires forall k | 0 <= k < i :: rs[k].stop < start
    requires i < |rs| ==> stop < rs[i].start
    ensures joined.start <= joined.stop
    ensures a > 0 ==> rs[a - 1].stop + 1 < joined.start
    ensures b < |rs| ==> joined.stop + 1 < rs[b].start
  {
  }

  lemma JoinedHas(rs: seq<Range>, i: nat, start: int, stop: int, a: nat, b: nat, joined: Range, id: int)
    requires start <= stop && i <= |rs| && Joins(rs, i, start, stop, a, b, joined)
    requires forall k | 0 <= k < |rs| :: rs[k].start <= rs[k].stop
    ensures
      Has(rs, id) || start <= id <= stop <==>
      joined.start <= id <= joined.stop || exists k | 0 <= k < |rs| && (k < a || b <= k) :: rs[k].start <= id <= rs[k].stop
  {
    if Has(rs, id) {
      var k :| 0 <= k < |rs| && rs[k].start <= id <= rs[k].stop;
      assert k < a || b <= k || joined.start <= id <= joined.stop;
    }
    if joined.start <= id < start {
      assert rs[i - 1].start <= id <= rs[i - 1].stop;
    } else if stop < id <= joined.stop {
      assert rs[i].start <= id <= rs[i].stop;
    }
  }

  lemma PlacedUnion(rs: seq<Range>, i: nat, start: int, stop: int)
    requires Canonical(rs) && start <= stop && i <= |rs|
    requires forall k | 0 <= k < i :: rs[k].stop < start
    requires i < |rs| ==> stop < rs[i].start
    ensures IsUnion(rs, start, stop, InsertFrom(rs, i, start, stop).1)
  {
    hide Splice, InsertFrom, Has;
    var before := i > 0 && rs[i - 1].stop + 1 == start;
    var after := i < |rs| && rs[i].start - 1 == stop;
    var a := if before then i - 1 else i;
    var b := if after then i + 1 else i;
    var joined := Range(if before then rs[i - 1].start else start, if after then rs[i].stop else stop);
    PlacedSplice(rs, i, start, stop, a, b, joined);
    JoinedCanonical(rs, i, start, stop, a, b, joined);
    SpliceCanonical(rs, a, b, joined);
    forall id
      ensures Has(Splice(rs, a, b, joined), id) <==> Has(rs, id) || start <= id <= stop
    {
      SpliceHas(rs, a, b, joined, id);
      JoinedHas(rs, i, start, stop, a, b, joined, id);
    }
  }

  lemma InsertIs(rs: seq<Range>, start: int, stop: int)
    requires Canonical(rs) && start <= stop
    ensures
      var (status, rs') := Insert(rs, start, stop);
      if status.Overlapped? then Meets(rs, start, stop) && rs' == rs
      else !Meets(rs, start, stop) && IsUnion(rs, start, stop, rs') && StatusFor(rs, start, stop, status)
  {
    InsertFromIs(rs, 0, start, stop);
  }

  // A set of ids has one canonical list: the order in which ranges come does not matter.
  lemma {:induction false} CanonicalUnique(a: seq<Range>, b: seq<Range>)
    requires Canonical(a) && Canonical(b) && forall id :: Has(a, id) <==> Has(b, id)
    ensures a == b
    decreases |a|
  {
    if a == [] && b != [] {
      AroundFirst(b);
    } else if a != [] && b == [] {
      AroundFirst(a);
    } else if a != [] {
      FirstRange(a, b);
      hide Canonical, Has;
      forall id
        ensures Has(a[1..], id) <==> Has(b[1..], id)
      {
        HasRest(a, id);
        HasRest(b, id);
      }
      CanonicalUnique(a[1..], b[1..]);
      assert a == [a[0]] + a[1..] && b == [b[0]] + b[1..];
    }
  }

  lemma HasRest(a: seq<Range>, id: int)
    requires Canonical(a) && a != []
    ensures Has(a[1..], id) <==> Has(a, id) && id > a[0].stop
  {
    if Has(a, id) {
      var k :| 0 <= k < |a| && a[k].start <= id <= a[k].stop;
      if k > 0 {
        assert a[1..][k - 1] == a[k];
      }
    }
    if Has(a[1..], id) {
      var k :| 0 <= k < |a| - 1 && a[1..][k].start <= id <= a[1..][k].stop;
      assert a[k + 1].start <= id <= a[k + 1].stop;
    }
  }

  lemma AroundFirst(a: seq<Range>)
    requires Canonical(a) && a != []
    ensures Has(a, a[0].start) && !Has(a, a[0].stop + 1) && forall id | id < a[0].start :: !Has(a, id)
    ensures forall id | a[0].start <= id <= a[0].stop :: Has(a, id)
  {
  }

  lemma FirstRange(a: seq<Range>, b: seq<Range>)
    requires Canonical(a) && Canonical(b) && a != [] && b != [] && forall id :: Has(a, id) <==> Has(b, id)
    ensures a[0] == b[0]
  {
    AroundFirst(a);
    AroundFirst(b);
    hide Has, Canonical;
    var x, y := a[0].stop + 1, b[0].stop + 1;
    assert !Has(b, x) && !Has(a, y);
  }

  // ----- how many ids -----

  lemma {:induction false} TotalJoin(a: seq<Range>, b: seq<Range>)
    ensures Total(a + b) == Total(a) + Total(b)
  {
    if a == [] {
      assert a + b == b;
    } else {
      TotalJoin(a[1..], b);
      assert (a + b)[1..] == a[1..] + b;
    }
  }

  lemma TotalOne(r: Range)
    ensures Total([r]) == r.stop - r.start + 1
  {
  }

  lemma TotalSplice(rs: seq<Range>, a: nat, b: nat, r: Range)
    requires a <= b <= |rs|
    ensures Total(Splice(rs, a, b, r)) == Total(rs) - Total(rs[a..b]) + r.stop - r.start + 1
  {
    hide Total;
    var x, y, z := rs[..a], rs[a..b], rs[b..];
    assert rs == x + (y + z);
    assert Splice(rs, a, b, r) == x + ([r] + z);
    TotalOne(r);
    TotalJoin3(x, y, z);
    TotalJoin3(x, [r], z);
  }

  lemma TotalJoin3(x: seq<Range>, y: seq<Range>, z: seq<Range>)
    ensures Total(x + (y + z)) == Total(x) + Total(y) + Total(z)
  {
    hide Total;
    TotalJoin(x, y + z);
    TotalJoin(y, z);
  }

  // Whatever the bounds, exactly the ids of the new range are added to the count.
  lemma {:induction false} InsertTotal(rs: seq<Range>, i: nat, start: int, stop: int)
    requires i <= |rs|
    ensures
      var (status, rs') := InsertFrom(rs, i, start, stop);
      !status.Overlapped? ==> Total(rs') == Total(rs) + stop - start + 1
    decreases |rs| - i
  {
    if i < |rs| && !Overlap(rs[i], start, stop) && rs[i].start < start {
      InsertTotal(rs, i + 1, start, stop);
    } else if i == |rs| || !Overlap(rs[i], start, stop) {
      var before := i > 0 && rs[i - 1].stop + 1 == start;
      var after := i < |rs| && rs[i].start - 1 == stop;
      var a := if before then i - 1 else i;
      var b := if after then i + 1 else i;
      var joined := Range(if before then rs[i - 1].start else start, if after then rs[i].stop else stop);
      assert InsertFrom(rs, i, start, stop).1 == Splice(rs, a, b, joined);
      TotalSplice(rs, a, b, joined);
      PairTotal(rs, a, b);
    }
  }

  lemma PairTotal(rs: seq<Range>, a: nat, b: nat)
    requires a <= b <= |rs| && b <= a + 2
    ensures Total(rs[a..b]) == (if a < b then rs[a].stop - rs[a].start + 1 else 0)
                             + (if a + 1 < b then rs[a + 1].stop - rs[a + 1].start + 1 else 0)
  {
    assert Total([]) == 0;
    hide Total;
    if a + 2 == b {
      assert rs[a..b] == [rs[a]] + [rs[a + 1]];
      TotalJoin([rs[a]], [rs[a + 1]]);
      TotalOne(rs[a]);
      TotalOne(rs[a + 1]);
    } else if a + 1 == b {
      assert rs[a..b] == [rs[a]];
      TotalOne(rs[a]);
    } else {
      assert rs[a..b] == [];
    }
  }

  // ----- the list itself -----

  class IntRange {
    var start: int
    var stop: int
    var next: IntRange?
    var prev: IntRange?

    constructor (start: int, stop: int)
      ensures this.start == start && this.stop == stop && next == null && prev == null
    {
      this.start, this.stop, next, prev := start, stop, null, null;
    }
  }

  function RangesOf(ns: seq<IntRange>): (rs: seq<Range>)
    reads ns`start, ns`stop
    ensures |rs| == |ns| && forall k | 0 <= k < |ns| :: rs[k] == Range(ns[k].start, ns[k].stop)
  {
    if ns == [] then []
    else
      var n := ns[|ns| - 1];
      RangesOf(ns[..|ns| - 1]) + [Range(n.start, n.stop)]
  }

  lemma RangesWith(ns: seq<IntRange>, k: nat, n: IntRange, ns': seq<IntRange>)
    requires k <= |ns| && ns' == ns[..k] + [n] + ns[k..]
    ensures RangesOf(ns') == Splice(RangesOf(ns), k, k, Range(n.start, n.stop))
  {
    hide RangesOf;
    var rs, rs' := RangesOf(ns), RangesOf(ns');
    assert forall j | 0 <= j < k :: ns'[j] == ns[j];
    forall j | k < j < |ns'|
      ensures rs'[j] == rs[k..][j - k - 1]
    {
      assert ns'[j] == ns[j - 1];
    }
    assert rs' == rs[..k] + [rs'[k]] + rs[k..];
  }

  lemma RangesWithout(rs: seq<Range>, k: nat, r: Range, rs': seq<Range>)
    requires 0 < k < |rs| == |rs'| + 1
    requires forall j | 0 <= j < |rs'| :: rs'[j] == if j == k - 1 then r else rs[if j < k then j else j + 1]
    ensures rs' == Splice(rs, k - 1, k + 1, r)
  {
  }

  function Nth(ns: seq<IntRange>, k: int): IntRange? {
    if 0 <= k < |ns| then ns[k] else null
  }

  predicate LinkedAt(ns: seq<IntRange>, k: nat)
    requires k < |ns|
    reads ns
  {
    ns[k].next == Nth(ns, k + 1) && ns[k].prev == Nth(ns, k - 1)
  }

  class BlockList {
    var blocks: IntRange?
    var blockQty: int
    var objectQty: int
    ghost var nodes: seq<IntRange>

    ghost predicate Linked()
      reads this`nodes, this`blocks, this`blockQty, nodes
    {
      && Distinct(nodes) && blocks == Nth(nodes, 0) && blockQty == |nodes|
      && forall k | 0 <= k < |nodes| :: LinkedAt(nodes, k)
    }

    ghost function Ranges(): seq<Range>
      reads this`nodes, nodes
    {
      RangesOf(nodes)
    }

    ghost predicate Valid()
      reads this, nodes
    {
      Linked() && objectQty == Total(Ranges())
    }

    constructor ()
      ensures Valid() && Ranges() == [] && nodes == []
    {
      blocks, blockQty, objectQty, nodes := null, 0, 0, [];
    }

    // The two ranges before and at place k become one, and the second is freed.
    method Collapse(pir2: IntRange, pir: IntRange, ghost k: nat)
      requires Linked() && 0 < k < |nodes| && pir2 == nodes[k - 1] && pir == nodes[k]
      modifies this`blockQty, this`nodes, nodes
      ensures Linked() && nodes == old(nodes[..k] + nodes[k + 1..])
      ensures Ranges() == Splice(old(Ranges()), k - 1, k + 1, Range(old(pir2.start), old(pir.stop)))
    {
      hide RangesOf, Distinct, Splice;
      ghost var ns, rs, r := nodes, Ranges(), Range(pir2.start, pir.stop);
      Apart(ns, k - 1);
      if k + 1 < |ns| {
        Apart(ns, k + 1);
      }
      DistinctWithout(ns, k);
      assert LinkedAt(ns, k);
      pir2.stop := pir.stop;
      pir2.next := pir.next;
      if pir2.next != null {
        pir2.next.prev := pir2;
      }
      blockQty := blockQty - 1;
      nodes := nodes[..k] + nodes[k + 1..];
      forall j | 0 <= j < |nodes|
        ensures LinkedAt(nodes, j)
      {
        var o := if j < k then j else j + 1;
        assert nodes[j] == ns[o] && old(LinkedAt(ns, o)) && old(LinkedAt(ns, k));
        assert o != k - 1 ==> ns[o].next == old(ns[o].next);
        assert o != k + 1 ==> ns[o].prev == old(ns[o].prev);
      }
      forall j | 0 <= j < |nodes|
        ensures Ranges()[j] == if j == k - 1 then r else rs[if j < k then j else j + 1]
      {
        assert nodes[j] == ns[if j < k then j else j + 1];
      }
      RangesWithout(rs, k, r, Ranges());
    }

    // A new range before place k: pir is the one there, if any, and pir2 the one before.
    method LinkNew(pir2: IntRange?, pir: IntRange?, start: int, stop: int, ghost k: nat)
      requires Linked() && k <= |nodes| && pir2 == Nth(nodes, k - 1) && pir == Nth(nodes, k)
      modifies this`blocks, this`blockQty, this`nodes, nodes
      ensures Linked() && |nodes| == |old(nodes)| + 1 && fresh(nodes[k])
      ensures nodes == old(nodes[..k]) + [nodes[k]] + old(nodes[k..])
      ensures Ranges() == Splice(old(Ranges()), k, k, Range(start, stop))
    {
      hide RangesOf, Distinct;
      ghost var ns := nodes;
      var fresh2 := new IntRange(start, stop);
      LinkIn(fresh2, pir2, pir, k);
      RangesWith(ns, k, fresh2, nodes);
      assert RangesOf(ns) == old(RangesOf(ns));
    }

    // The links of a new node, and of those before and after it.
    method LinkIn(fresh2: IntRange, pir2: IntRange?, pir: IntRange?, ghost k: nat)
      requires Linked() && k <= |nodes| && pir2 == Nth(nodes, k - 1) && pir == Nth(nodes, k) && fresh2 !in nodes
      modifies this`blocks, this`blockQty, this`nodes, nodes`next, nodes`prev, fresh2`next, fresh2`prev
      ensures Linked() && nodes == old(nodes[..k]) + [fresh2] + old(nodes[k..])
    {
      hide Distinct;
      ghost var ns := nodes;
      if k > 0 {
        Apart(ns, k - 1);
      }
      if k < |ns| {
        Apart(ns, k);
      }
      fresh2.next := pir;
      fresh2.prev := pir2;
      if pir2 != null {
        pir2.next := fresh2;
      } else {
        blocks := fresh2;
      }
      if pir != null {
        pir.prev := fresh2;
      }
      blockQty := blockQty + 1;
      DistinctWith(ns, k, fresh2);
      nodes := nodes[..k] + [fresh2] + nodes[k..];
      forall j | 0 <= j < |nodes|
        ensures LinkedAt(nodes, j)
      {
        if j != k {
          var o := if j < k then j else j - 1;
          assert nodes[j] == ns[o] && old(LinkedAt(ns, o));
          assert o != k - 1 ==> ns[o].next == old(ns[o].next);
          assert o != k ==> ns[o].prev == old(ns[o].prev);
        }
      }
    }

    // The bounds of one range change.
    method Widen(pir: IntRange, start: int, stop: int, ghost k: nat)
      requires Linked() && k < |nodes| && pir == nodes[k]
      modifies pir`start, pir`stop
      ensures Linked() && Ranges() == old(Ranges())[k := Range(start, stop)]
    {
      hide RangesOf, Distinct;
      Apart(nodes, k);
      pir.start, pir.stop := start, stop;
      forall j | 0 <= j < |nodes|
        ensures LinkedAt(nodes, j)
      {
        assert old(LinkedAt(nodes, j));
      }
    }

    // insert_range
    method InsertRange(start: int, stop: int) returns (status: Status)
      requires Valid()
      modifies this, nodes
      ensures Valid() && forall n | n in nodes :: n in old(nodes) || fresh(n)
      ensures (status, Ranges()) == Insert(old(Ranges()), start, stop)
    {
      hide RangesOf, Distinct, Total;
      ghost var rs := Ranges();
      ghost var i := 0;
      var pir, pir2: IntRange? := blocks, null;
      InsertTotal(rs, 0, start, stop);
      while pir != null
        invariant i <= |nodes| && pir == Nth(nodes, i) && pir2 == Nth(nodes, i - 1)
        invariant Insert(rs, start, stop) == InsertFrom(rs, i, start, stop)
        decreases |nodes| - i
      {
        if Overlap(Range(pir.start, pir.stop), start, stop) {
          return Overlapped;
        }
        if pir.start >= start {
          break;
        }
        assert LinkedAt(nodes, i);
        pir2, pir, i := pir, pir.next, i + 1;
      }
      status := JoinRange(pir2, pir, start, stop, i);
      objectQty := objectQty + stop - start + 1;
    }

    // The new range has come to its place, i: it is joined to the ranges next to it, or linked.
    method JoinRange(pir2: IntRange?, pir: IntRange?, start: int, stop: int, ghost i: nat) returns (status: Status)
      requires Linked() && i <= |nodes| && pir == Nth(nodes, i) && pir2 == Nth(nodes, i - 1)
      requires pir != null ==> !Overlap(Range(pir.start, pir.stop), start, stop) && pir.start >= start
      modifies this`blocks, this`blockQty, this`nodes, nodes
      ensures Linked() && forall n | n in nodes :: n in old(nodes) || fresh(n)
      ensures (status, Ranges()) == InsertFrom(old(Ranges()), i, start, stop) && !status.Overlapped?
    {
      hide RangesOf, Distinct;
      ghost var rs := Ranges();
      var before := pir2 != null && pir2.stop + 1 == start;
      if pir != null && pir.start - 1 == stop {
        if before {
          Collapse(pir2, pir, i);
          status := Collapsed;
        } else {
          Widen(pir, start, pir.stop, i);
          status := Merged;
          assert Ranges() == rs[i := Range(start, rs[i].stop)];
        }
      } else if before {
        Widen(pir2, pir2.start, stop, i - 1);
        status := Merged;
        assert Ranges() == rs[i - 1 := Range(rs[i - 1].start, stop)];
      } else {
        LinkNew(pir2, pir, start, stop, i);
        status := Inserted;
        assert i == |rs| ==> Splice(rs, i, i, Range(start, stop)) == rs + [Range(start, stop)];
      }
    }

    // check_object_ids: whether each block of ids lies in one of the ranges.
    method CheckObjectIds(blks: seq<(int, int)>) returns (ok: bool)
      requires Valid()
      ensures ok <==> forall b | b in blks :: InOneRange(Ranges(), b.0, b.1)
    {
      var i := 0;
      ok := true;
      while i < |blks| && ok
        invariant i <= |blks|
        invariant ok ==> forall b | b in blks[..i] :: InOneRange(Ranges(), b.0, b.1)
        invariant !ok ==> i > 0 && !InOneRange(Ranges(), blks[i - 1].0, blks[i - 1].1)
      {
        ok := FindRange(blks[i].0, blks[i].1);
        i := i + 1;
      }
    }

    method FindRange(lo: int, hi: int) returns (found: bool)
      requires Valid()
      ensures found <==> InOneRange(Ranges(), lo, hi)
    {
      var pir := blocks;
      ghost var k := 0;
      while pir != null
        invariant k <= |nodes| && pir == Nth(nodes, k)
        invariant forall j | 0 <= j < k :: lo < Ranges()[j].start || hi > Ranges()[j].stop
        decreases |nodes| - k
      {
        if lo < pir.start || hi > pir.stop {
          assert LinkedAt(nodes, k);
          pir := pir.next;
          k := k + 1;
        } else {
          assert Ranges()[k].start <= lo && hi <= Ranges()[k].stop;
          return true;
        }
      }
      return false;
    }
  }

  predicate InOneRange(rs: seq<Range>, lo: int, hi: int) {
    exists k | 0 <= k < |rs| :: rs[k].start <= lo && hi <= rs[k].stop
  }

  // In a canonical list a block lies in one range when all its ids are there.
  lemma InOneRangeIs(rs: seq<Range>, lo: int, hi: int)
    requires Canonical(rs) && lo <= hi
    ensures InOneRange(rs, lo, hi) <==> forall id | lo <= id <= hi :: Has(rs, id)
  {
    if forall id | lo <= id <= hi :: Has(rs, id) {
      assert Has(rs, lo);
      var k :| 0 <= k < |rs| && rs[k].start <= lo <= rs[k].stop;
      if rs[k].stop < hi {
        var id := rs[k].stop + 1;
        assert Has(rs, id);
        var m :| 0 <= m < |rs| && rs[m].start <= id <= rs[m].stop;
        GapAfter(rs, k, m);
      }
    }
  }

  lemma GapAfter(rs: seq<Range>, k: nat, m: nat)
    requires Canonical(rs) && k < |rs| && m < |rs|
    ensures !(rs[m].start <= rs[k].stop + 1 <= rs[m].stop)
  {
  }
}
