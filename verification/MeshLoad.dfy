/**
 Connectivities back in the caller's arrays: each record is scattered to the rows of its ids.
 */
module MeshLoad {
  import opened Directory
  import opened MeshRecords

  // The arrays have a row for the id.
  predicate HasRow(conns: nat, mats: nat, parts: nat, q: nat, id: int) {
    1 <= id <= mats && id <= parts && Slot(0, q, id) <= conns
  }

  // The row of an id: its nodes, its material and its part, each less by one.
  predicate RowIs(conns: seq<int>, mats: seq<int>, parts: seq<int>, q: nat, id: int, ws: seq<int>) {
    && HasRow(|conns|, |mats|, |parts|, q, id) && |ws| == q + 2
    && RowStart(q, id) + q <= |conns|
    && (forall k | 0 <= k < q :: conns[RowStart(q, id) + k] == ws[k] - 1)
    && mats[id - 1] == ws[q] - 1 && parts[id - 1] == ws[q + 1] - 1
  }

  function RowStart(q: nat, id: int): nat {
    if id >= 1 then Slot(0, q, id - 1) else 0
  }

  // The row of a truss: two nodes, a material and a part.
  lemma TrussRow(conns: seq<int>, mats: seq<int>, parts: seq<int>, id: int, a: int, b: int, mat: int, part: int)
    ensures RowIs(conns, mats, parts, 2, id, [a, b, mat, part]) <==>
      && 1 <= id <= |mats| && id <= |parts| && 2 * id <= |conns|
      && conns[2 * id - 2] == a - 1 && conns[2 * id - 1] == b - 1 && mats[id - 1] == mat - 1 && parts[id - 1] == part - 1
  {
    if id >= 1 {
      assert RowStart(2, id) == 2 * id - 2 && RowStart(2, id) + 0 == 2 * id - 2 && RowStart(2, id) + 1 == 2 * id - 1;
      var ws := [a, b, mat, part];
      assert Slot(0, 2, id) == 2 * id && ws[0] == a && ws[1] == b;
      if RowIs(conns, mats, parts, 2, id, [a, b, mat, part]) {
        assert conns[RowStart(2, id) + 0] == a - 1 && conns[RowStart(2, id) + 1] == b - 1;
      }
    }
  }

  predicate RowSame(conns: seq<int>, mats: seq<int>, parts: seq<int>,
                    conns': seq<int>, mats': seq<int>, parts': seq<int>, q: nat, id: int)
  {
    HasRow(|conns|, |mats|, |parts|, q, id) ==>
      && |conns'| == |conns| && |mats'| == |mats| && |parts'| == |parts| && RowStart(q, id) + q <= |conns|
      && conns'[RowStart(q, id)..RowStart(q, id) + q] == conns[RowStart(q, id)..RowStart(q, id) + q]
      && mats'[id - 1] == mats[id - 1] && parts'[id - 1] == parts[id - 1]
  }

  lemma RowStaysSame(conns: seq<int>, mats: seq<int>, parts: seq<int>, conns': seq<int>, mats': seq<int>,
                     parts': seq<int>, q: nat, id: int, ws: seq<int>)
    requires RowIs(conns, mats, parts, q, id, ws) && RowSame(conns, mats, parts, conns', mats', parts', q, id)
    ensures RowIs(conns', mats', parts', q, id, ws)
  {
    var r := RowStart(q, id);
    forall k | 0 <= k < q
      ensures conns'[r + k] == ws[k] - 1
    {
      assert conns'[r..r + q][k] == conns[r..r + q][k];
    }
  }

  lemma RowInside(conns: nat, mats: nat, parts: nat, q: nat, id: int)
    requires HasRow(conns, mats, parts, q, id)
    ensures RowStart(q, id) + q <= conns
  {
    SlotNext(0, q, id - 1);
  }

  // Different ids have different rows.
  lemma RowsApart(q: nat, a: int, b: int)
    requires 1 <= a < b
    ensures RowStart(q, a) + q <= RowStart(q, b)
  {
    SlotOrder(0, q, a - 1, b - 1);
  }

  // One element's words, from p on in the file.
  method LoadRow(file: seq<int>, p: nat, q: nat, id: int, conns: array<int>, mats: array<int>, parts: array<int>)
    requires conns != mats && conns != parts && mats != parts
    requires p + q + 2 <= |file| && HasRow(conns.Length, mats.Length, parts.Length, q, id)
    modifies conns, mats, parts
    ensures RowIs(conns[..], mats[..], parts[..], q, id, file[p..p + q + 2])
    ensures forall x | x != id :: RowSame(old(conns[..]), old(mats[..]), old(parts[..]), conns[..], mats[..], parts[..], q, x)
  {
    hide Slot;
    RowInside(conns.Length, mats.Length, parts.Length, q, id);
    var dest := RowStart(q, id);
    for j := 0 to q
      modifies conns
      invariant forall x | dest <= x < dest + j :: conns[x] == file[p + (x - dest)] - 1
      invariant forall x | 0 <= x < conns.Length && !(dest <= x < dest + q) :: conns[x] == old(conns[x])
    {
      conns[dest + j] := file[p + j] - 1;
    }
    mats[id - 1] := file[p + q] - 1;
    parts[id - 1] := file[p + q + 1] - 1;
    forall x | x != id && HasRow(conns.Length, mats.Length, parts.Length, q, x)
      ensures RowSame(old(conns[..]), old(mats[..]), old(parts[..]), conns[..], mats[..], parts[..], q, x)
    {
      RowInside(conns.Length, mats.Length, parts.Length, q, x);
      if x < id {
        RowsApart(q, x, id);
      } else {
        RowsApart(q, id, x);
      }
    }
  }

  lemma RowSameTwice(a: seq<int>, b: seq<int>, c: seq<int>, a': seq<int>, b': seq<int>, c': seq<int>,
                     a'': seq<int>, b'': seq<int>, c'': seq<int>, q: nat, id: int)
    requires RowSame(a, b, c, a', b', c', q, id) && RowSame(a', b', c', a'', b'', c'', q, id)
    ensures RowSame(a, b, c, a'', b'', c'', q, id)
  {
  }

  function ObjectOf(file: seq<int>, base: nat, w: nat, start: int, id: int): seq<int> {
    if id >= start then ObjectAt(file, base, w, id - start) else []
  }

  // The elements of one block, from p on in the file.
  method LoadBlock(file: seq<int>, p: nat, q: nat, w: nat, start: int, n: nat,
                   conns: array<int>, mats: array<int>, parts: array<int>)
    requires w == q + 2
    requires conns != mats && conns != parts && mats != parts
    requires Slot(p, w, n) <= |file|
    requires forall id | start <= id < start + n :: HasRow(conns.Length, mats.Length, parts.Length, q, id)
    modifies conns, mats, parts
    ensures forall id | start <= id < start + n ::
      RowIs(conns[..], mats[..], parts[..], q, id, ObjectOf(file, p, w, start, id))
    ensures forall x | !(start <= x < start + n) ::
      RowSame(old(conns[..]), old(mats[..]), old(parts[..]), conns[..], mats[..], parts[..], q, x)
  {
    hide RowIs, RowSame, HasRow;
    ghost var a, b, c := conns[..], mats[..], parts[..];
    RowSameSelf(a, b, c, q);
    for r: nat := 0 to n
      invariant forall id | start <= id < start + r ::
        RowIs(conns[..], mats[..], parts[..], q, id, ObjectOf(file, p, w, start, id))
      invariant forall x | !(start <= x < start + r) :: RowSame(a, b, c, conns[..], mats[..], parts[..], q, x)
    {
      SlotOrder(p, w, r, n);
      ghost var a', b', c' := conns[..], mats[..], parts[..];
      LoadRow(file, Slot(p, w, r), q, start + r, conns, mats, parts);
      forall id | start <= id < start + r
        ensures RowIs(conns[..], mats[..], parts[..], q, id, ObjectOf(file, p, w, start, id))
      {
        RowStaysSame(a', b', c', conns[..], mats[..], parts[..], q, id, ObjectOf(file, p, w, start, id));
      }
      forall x | !(start <= x < start + r + 1)
        ensures RowSame(a, b, c, conns[..], mats[..], parts[..], q, x)
      {
        RowSameTwice(a, b, c, a', b', c', conns[..], mats[..], parts[..], q, x);
      }
    }
  }

  lemma RowSameSelf(a: seq<int>, b: seq<int>, c: seq<int>, q: nat)
    ensures forall x :: RowSame(a, b, c, a, b, c, q, x)
  {
    forall x | HasRow(|a|, |b|, |c|, q, x)
      ensures RowStart(q, x) + q <= |a|
    {
      RowInside(|a|, |b|, |c|, q, x);
    }
  }

  // ----- coordinates -----

  predicate HasCoords(coords: nat, d: nat, id: int) {
    id >= 1 && RowStart(d, id) + d <= coords
  }

  predicate CoordsAre(coords: seq<int>, d: nat, id: int, ws: seq<int>) {
    HasCoords(|coords|, d, id) && coords[RowStart(d, id)..RowStart(d, id) + d] == ws
  }

  predicate CoordsSame(coords: seq<int>, coords': seq<int>, d: nat, id: int) {
    |coords'| == |coords|
    && (HasCoords(|coords|, d, id) ==>
          coords'[RowStart(d, id)..RowStart(d, id) + d] == coords[RowStart(d, id)..RowStart(d, id) + d])
  }

  // The coordinates of nodes start and on, in one piece.
  method LoadCoords(file: seq<int>, base: nat, d: nat, start: int, n: nat, coords: array<int>)
    requires n >= 1 && Slot(base, d, n) <= |file|
    requires forall id | start <= id < start + n :: HasCoords(coords.Length, d, id)
    modifies coords
    ensures forall id | start <= id < start + n :: CoordsAre(coords[..], d, id, ObjectOf(file, base, d, start, id))
    ensures forall x | !(start <= x < start + n) :: CoordsSame(old(coords[..]), coords[..], d, x)
  {
    assert HasCoords(coords.Length, d, start) && HasCoords(coords.Length, d, start + n - 1);
    var dest := RowStart(d, start);
    var floatQty := n * d;
    CoordsFit(d, start, n);
    for k := 0 to floatQty
      invariant coords[..dest] == old(coords[..dest]) && coords[dest + floatQty..] == old(coords[dest + floatQty..])
      invariant coords[dest..dest + k] == file[base..base + k]
    {
      coords[dest + k] := file[base + k];
    }
    CoordsLoaded(file, base, d, start, n, old(coords[..]), coords[..]);
  }

  lemma CoordsFit(d: nat, start: int, n: nat)
    requires start >= 1 && n >= 1
    ensures RowStart(d, start) + n * d == RowStart(d, start + n - 1) + d
  {
    SlotShift(0, d, start - 1, n - 1);
    SlotNext(RowStart(d, start), d, n - 1);
  }

  // The array a' holds len words of the file, from base on, at dest, and is otherwise a.
  predicate Copied(file: seq<int>, base: nat, len: nat, a: seq<int>, a': seq<int>, dest: nat) {
    && base + len <= |file| && dest + len <= |a| == |a'|
    && a'[..dest] == a[..dest] && a'[dest + len..] == a[dest + len..] && a'[dest..dest + len] == file[base..base + len]
  }

  lemma CopiedFits(file: seq<int>, base: nat, len: nat, a: seq<int>, a': seq<int>, dest: nat)
    requires Copied(file, base, len, a, a', dest)
    ensures base + len <= |file| && dest + len <= |a| == |a'|
  {
  }

  lemma CopiedPart(file: seq<int>, base: nat, len: nat, a: seq<int>, a': seq<int>, dest: nat, x: nat, d: nat)
    requires Copied(file, base, len, a, a', dest) && x + d <= len
    ensures a'[dest + x..dest + x + d] == file[base + x..base + x + d]
  {
    var s, t := a'[dest..dest + len], file[base..base + len];
    var u, v := a'[dest + x..dest + x + d], file[base + x..base + x + d];
    forall k | 0 <= k < d
      ensures u[k] == v[k]
    {
      assert u[k] == a'[dest + x + k] == s[x + k] && v[k] == file[base + x + k] == t[x + k];
    }
  }

  lemma CoordsLoaded(file: seq<int>, base: nat, d: nat, start: int, n: nat, a: seq<int>, a': seq<int>)
    requires start >= 1 && n >= 1 && Copied(file, base, n * d, a, a', RowStart(d, start))
    ensures forall id | start <= id < start + n :: CoordsAre(a', d, id, ObjectOf(file, base, d, start, id))
    ensures forall x | !(start <= x < start + n) :: CoordsSame(a, a', d, x)
  {
    var dest := RowStart(d, start);
    forall id | start <= id < start + n
      ensures CoordsAre(a', d, id, ObjectOf(file, base, d, start, id))
    {
      OneLoaded(file, base, d, start, n, a, a', id);
    }
    forall x | !(start <= x < start + n) && HasCoords(|a|, d, x)
      ensures CoordsSame(a, a', d, x)
    {
      OneKept(file, base, d, start, n, a, a', x);
    }
  }

  lemma OneLoaded(file: seq<int>, base: nat, d: nat, start: int, n: nat, a: seq<int>, a': seq<int>, id: int)
    requires start >= 1 && n >= 1 && Copied(file, base, n * d, a, a', RowStart(d, start)) && start <= id < start + n
    ensures CoordsAre(a', d, id, ObjectOf(file, base, d, start, id))
  {
    hide Slot, Copied;
    var i := id - start;
    SlotShift(0, d, start - 1, i);
    SlotFrom(RowStart(d, start), d, i);
    SlotFrom(base, d, i);
    SlotFrom(0, d, n);
    SlotOrder(0, d, i, n);
    CopiedFits(file, base, n * d, a, a', RowStart(d, start));
    CopiedPart(file, base, n * d, a, a', RowStart(d, start), Slot(0, d, i), d);
  }

  lemma OneKept(file: seq<int>, base: nat, d: nat, start: int, n: nat, a: seq<int>, a': seq<int>, x: int)
    requires start >= 1 && n >= 1 && Copied(file, base, n * d, a, a', RowStart(d, start)) && !(start <= x < start + n)
    requires HasCoords(|a|, d, x)
    ensures CoordsSame(a, a', d, x)
  {
    var r, dest, len := RowStart(d, x), RowStart(d, start), n * d;
    if x < start {
      RowsApart(d, x, start);
    } else {
      CoordsFit(d, start, n);
      RowsApart(d, start + n - 1, x);
    }
    hide RowStart;
    SameSlice(a, a', dest, dest + len, r, r + d);
  }

  lemma CoordsStay(a: seq<int>, a': seq<int>, d: nat, id: int, ws: seq<int>)
    requires CoordsAre(a, d, id, ws) && CoordsSame(a, a', d, id)
    ensures CoordsAre(a', d, id, ws)
  {
  }

  lemma CoordsTwice(a: seq<int>, a': seq<int>, a'': seq<int>, d: nat, id: int)
    requires CoordsSame(a, a', d, id) && CoordsSame(a', a'', d, id)
    ensures CoordsSame(a, a'', d, id)
  {
  }

  lemma CoordsSelf(a: seq<int>, d: nat)
    ensures forall x :: CoordsSame(a, a, d, x)
  {
  }
}
