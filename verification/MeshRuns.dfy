/**
 Two whole runs: a family is begun, a mesh and a class are made in it, objects are defined in
 two steps, and loaded. What is loaded is what was passed last for each object.
 */
module MeshRuns {
  import opened Wrappers
  import opened MeshRanges
  import opened Directory
  import opened MeshRecords
  import opened MeshLoad
  import opened MeshFiles
  import opened MeshUpdate
  import opened MeshFamily

  // A family with one mesh, and one class in it.
  method Begin(superclass: nat, name: Name, longName: Name, dim: int) returns (fam: Family, mesh: nat)
    requires superclass < 16 && name != [] && longName != [] && (dim == 2 || dim == 3)
    ensures fresh(fam) && fam.Valid() && mesh < fam.qtyMeshes && fam.dimensions == dim && fam.objects == map[]
    ensures (mesh, name) in fam.classes && fam.classes[(mesh, name)].superclass == superclass
  {
    hide Family.Valid, Family.Reopens, Family.Told, Family.LastIs, Grows;
    fam := new Family();
    var status;
    status, mesh := fam.MakeMesh([], dim);
    status := fam.DefClass(mesh, superclass, name, longName);
  }

  // The row of an element whose words stand in data, from the words of element start on.
  predicate RowOf(conns: seq<int>, mats: seq<int>, parts: seq<int>, w: nat, data: seq<int>, start: int, id: int)
    requires w >= 2
  {
    id >= start && RowIs(conns, mats, parts, w - 2, id, ObjectAt(data, 0, w, id - start))
  }

  predicate CoordsOf(coords: seq<int>, d: nat, data: seq<int>, start: int, id: int) {
    id >= start && CoordsAre(coords, d, id, ObjectAt(data, 0, d, id - start))
  }

  lemma NewIs(kind: int, mesh: int, name: Name, start: int, n: nat, w: nat, data: seq<int>, id: int)
    ensures
      var more := NewObjects(kind, mesh, name, start, n, w, data);
      && (Key(kind, mesh, name, id) in more <==> start <= id < start + n)
      && (start <= id < start + n ==> more[Key(kind, mesh, name, id)] == ObjectAt(data, 0, w, id - start))
  {
  }

  lemma NewDefines(kind: int, mesh: int, name: Name, start: int, n: nat, w: nat, data: seq<int>)
    requires IsData(kind)
    ensures forall id :: Defined(NewObjects(kind, mesh, name, start, n, w, data), (mesh, name), id) <==> start <= id < start + n
  {
  }

  lemma NothingDefined(c: (int, Name))
    ensures forall id :: !Defined(map[], c, id)
  {
  }

  lemma NothingBefore(objs: Objects)
    ensures map[] + objs == objs
  {
  }

  lemma ElementWords(superclass: nat)
    requires IsElement(superclass)
    ensures CONN_WORDS[superclass] > 2 && superclass < 16 && WordsEach(ELEM_CONNS, superclass, 0) == CONN_WORDS[superclass]
    ensures forall d: nat :: WordsEach(ELEM_CONNS, superclass, d) == CONN_WORDS[superclass]
    ensures M_TRUSS <= superclass <= M_INODE
  {
  }

  predicate RowKept(conns: seq<int>, mats: seq<int>, parts: seq<int>, conns': seq<int>, mats': seq<int>, parts': seq<int>,
                    w: nat, id: int)
    requires w >= 2
  {
    RowSame(conns, mats, parts, conns', mats', parts', w - 2, id)
  }

  // Where there is room for element d, there is room for those before it.
  lemma RoomBelow(fam: Family, c: (int, Name), w: nat, conns: nat, mats: nat, parts: nat, d: int)
    requires c in fam.classes && fam.ConnWords(c) == w > 2 && HasRow(conns, mats, parts, w - 2, d)
    requires forall id :: Key(ELEM_CONNS, c.0, c.1, id) in fam.objects ==> 1 <= id <= d
    ensures fam.RowsFit(c, conns, mats, parts)
  {
    forall id | Key(ELEM_CONNS, c.0, c.1, id) in fam.objects
      ensures HasRow(conns, mats, parts, w - 2, id)
    {
      SlotOrder(0, w - 2, id, d);
    }
  }

  lemma RowFrom(fam: Family, c: (int, Name), w: nat, cs: seq<int>, bs: seq<int>, ps: seq<int>,
                cs': seq<int>, bs': seq<int>, ps': seq<int>, data: seq<int>, start: int, n: nat)
    requires c in fam.classes && fam.ConnWords(c) == w > 2 && fam.AllRows(c, cs, bs, ps, cs', bs', ps')
    requires ObjectsKept(NewObjects(ELEM_CONNS, c.0, c.1, start, n, w, data), fam.objects)
    ensures forall id :: start <= id < start + n ==> RowOf(cs', bs', ps', w, data, start, id)
  {
    hide RowIs, RowSame;
    forall id | start <= id < start + n
      ensures RowOf(cs', bs', ps', w, data, start, id)
    {
      NewIs(ELEM_CONNS, c.0, c.1, start, n, w, data, id);
      assert Key(ELEM_CONNS, c.0, c.1, id) in fam.objects;
    }
  }

  lemma KeptFrom(fam: Family, c: (int, Name), w: nat, cs: seq<int>, bs: seq<int>, ps: seq<int>,
                 cs': seq<int>, bs': seq<int>, ps': seq<int>, x: int)
    requires c in fam.classes && fam.ConnWords(c) == w > 2 && fam.AllRows(c, cs, bs, ps, cs', bs', ps')
    requires Key(ELEM_CONNS, c.0, c.1, x) !in fam.objects
    ensures RowKept(cs, bs, ps, cs', bs', ps', w, x)
  {
    hide RowIs, RowSame;
  }

  // Two ranges that do not meet.
  lemma TwoRanges(mesh: int, name: Name, kind: int, a: int, b: int, low: seq<int>, c: int, d: int, high: seq<int>, w: nat)
    requires a <= b < c <= d
    ensures
      var first := NewObjects(kind, mesh, name, a, b - a + 1, w, low);
      var second := NewObjects(kind, mesh, name, c, d - c + 1, w, high);
      && ObjectsKept(first, second + first) && ObjectsKept(second, second + first)
      && forall id :: Key(kind, mesh, name, id) in second + first <==> a <= id <= b || c <= id <= d
  {
  }

  lemma RowsFrom(fam: Family, mesh: nat, name: Name, w: nat, cs: seq<int>, bs: seq<int>, ps: seq<int>,
                 cs': seq<int>, bs': seq<int>, ps': seq<int>, a: int, b: int, low: seq<int>, c: int, d: int, high: seq<int>)
    requires (mesh, name) in fam.classes && fam.ConnWords((mesh, name)) == w > 2 && a <= b < c <= d
    requires fam.AllRows((mesh, name), cs, bs, ps, cs', bs', ps')
    requires fam.objects == NewObjects(ELEM_CONNS, mesh, name, c, d - c + 1, w, high)
                          + NewObjects(ELEM_CONNS, mesh, name, a, b - a + 1, w, low)
    ensures forall id :: a <= id <= b ==> RowOf(cs', bs', ps', w, low, a, id)
    ensures forall id :: c <= id <= d ==> RowOf(cs', bs', ps', w, high, c, id)
    ensures forall x :: x < a || b < x < c || d < x ==> RowKept(cs, bs, ps, cs', bs', ps', w, x)
  {
    hide RowOf, RowKept, NewObjects, ObjectsKept, Family.AllRows, Family.ConnWords;
    TwoRanges(mesh, name, ELEM_CONNS, a, b, low, c, d, high, w);
    RowFrom(fam, (mesh, name), w, cs, bs, ps, cs', bs', ps', low, a, b - a + 1);
    RowFrom(fam, (mesh, name), w, cs, bs, ps, cs', bs', ps', high, c, d - c + 1);
    forall x | x < a || b < x < c || d < x
      ensures RowKept(cs, bs, ps, cs', bs', ps', w, x)
    {
      KeptFrom(fam, (mesh, name), w, cs, bs, ps, cs', bs', ps', x);
    }
  }

  method DefineElements(superclass: nat, name: Name, longName: Name, dim: int, a: int, b: int, low: seq<int>,
                        c: int, d: int, high: seq<int>)
    returns (fam: Family, mesh: nat)
    requires IsElement(superclass) && name != [] && longName != [] && (dim == 2 || dim == 3) && 1 <= a <= b < c <= d
    requires |low| == (b - a + 1) * CONN_WORDS[superclass] && |high| == (d - c + 1) * CONN_WORDS[superclass]
    ensures fresh(fam) && fam.Valid() && mesh < fam.qtyMeshes && (mesh, name) in fam.classes
    ensures fam.classes[(mesh, name)].superclass == superclass
    ensures fam.objects == NewObjects(ELEM_CONNS, mesh, name, c, d - c + 1, CONN_WORDS[superclass], high)
                         + NewObjects(ELEM_CONNS, mesh, name, a, b - a + 1, CONN_WORDS[superclass], low)
  {
    hide Family.Valid, Family.Reopens, Family.Told, Grows, NewObjects, Defined, InNewRecord, Family.LastIs, WordsEach;
    ElementWords(superclass);
    var w := CONN_WORDS[superclass];
    fam, mesh := Begin(superclass, name, longName, dim);
    NothingDefined((mesh, name));
    var status := fam.DefConnSeq(mesh, name, c, d, high);
    NothingBefore(NewObjects(ELEM_CONNS, mesh, name, c, d - c + 1, w, high));
    NewDefines(ELEM_CONNS, mesh, name, c, d - c + 1, w, high);
    status := fam.DefConnSeq(mesh, name, a, b, low);
  }

  // Elements c to d are defined, then a to b, and all of them are loaded.
  method ElementRun(superclass: nat, name: Name, longName: Name, dim: int, a: int, b: int, low: seq<int>,
                    c: int, d: int, high: seq<int>, conns: array<int>, mats: array<int>, parts: array<int>)
    returns (status: GeomStatus)
    requires IsElement(superclass) && name != [] && longName != [] && (dim == 2 || dim == 3) && 1 <= a <= b < c <= d
    requires |low| == (b - a + 1) * CONN_WORDS[superclass] && |high| == (d - c + 1) * CONN_WORDS[superclass]
    requires conns != mats && conns != parts && mats != parts
    requires CONN_WORDS[superclass] > 2 && HasRow(conns.Length, mats.Length, parts.Length, CONN_WORDS[superclass] - 2, d)
    modifies conns, mats, parts
    ensures status == Ok
    ensures forall id :: a <= id <= b ==> RowOf(conns[..], mats[..], parts[..], CONN_WORDS[superclass], low, a, id)
    ensures forall id :: c <= id <= d ==> RowOf(conns[..], mats[..], parts[..], CONN_WORDS[superclass], high, c, id)
    ensures forall x :: x < a || b < x < c || d < x ==>
      RowKept(old(conns[..]), old(mats[..]), old(parts[..]), conns[..], mats[..], parts[..], CONN_WORDS[superclass], x)
  {
    hide RowIs, RowSame, Family.Valid, NewObjects, RowOf, RowKept, WordsEach, Family.RowsFit, Family.AllRows, HasRow,
      ObjectsKept;
    ElementWords(superclass);
    var w := CONN_WORDS[superclass];
    var fam, mesh := DefineElements(superclass, name, longName, dim, a, b, low, c, d, high);
    TwoRanges(mesh, name, ELEM_CONNS, a, b, low, c, d, high, w);
    RoomBelow(fam, (mesh, name), w, conns.Length, mats.Length, parts.Length, d);
    ghost var cs, bs, ps := conns[..], mats[..], parts[..];
    status := fam.LoadConns(mesh, name, conns, mats, parts);
    RowsFrom(fam, mesh, name, w, cs, bs, ps, conns[..], mats[..], parts[..], a, b, low, c, d, high);
  }

  lemma RoomForNodes(fam: Family, c: (int, Name), coords: nat, b: int)
    requires HasCoords(coords, fam.dimensions, b)
    requires forall id :: Key(NODES, c.0, c.1, id) in fam.objects ==> 1 <= id <= b
    ensures fam.CoordsFit(c, coords)
  {
    forall id | Key(NODES, c.0, c.1, id) in fam.objects
      ensures HasCoords(coords, fam.dimensions, id)
    {
      SlotOrder(0, fam.dimensions, id - 1, b - 1);
    }
  }

  // A range, and then a part of it again.
  lemma TwiceDefined(mesh: int, name: Name, a: int, b: int, before: seq<int>, c: int, d: int, after: seq<int>, w: nat, id: int)
    requires a <= c <= d <= b
    ensures
      var objs := NewObjects(NODES, mesh, name, a, b - a + 1, w, before) + NewObjects(NODES, mesh, name, c, d - c + 1, w, after);
      var k := Key(NODES, mesh, name, id);
      && (k in objs <==> a <= id <= b)
      && (c <= id <= d ==> objs[k] == ObjectAt(after, 0, w, id - c))
      && (a <= id < c || d < id <= b ==> objs[k] == ObjectAt(before, 0, w, id - a))
  {
    NewIs(NODES, mesh, name, a, b - a + 1, w, before, id);
    NewIs(NODES, mesh, name, c, d - c + 1, w, after, id);
    hide NewObjects;
  }

  // All of a new range is in one record.
  lemma OneRecord(objs: Objects, places: map<Key, (nat, nat)>, mesh: int, name: Name, a: int, b: int, w: nat, data: seq<int>,
                  objs0: Objects, places0: map<Key, (nat, nat)>)
    returns (p: (nat, nat))
    requires a <= b && objs == NewObjects(NODES, mesh, name, a, b - a + 1, w, data)
    requires InNewRecord(objs0, places0, places, objs)
    ensures InOneRecord(objs, places, (mesh, name), a, b, p)
  {
    p :| places == places0 + PlacesOf(objs, p);
  }

  lemma CoordsFrom(fam: Family, c: (int, Name), a: seq<int>, a': seq<int>, id: int, data: seq<int>, start: int)
    requires fam.AllCoords(c, a, a') && Key(NODES, c.0, c.1, id) in fam.objects && id >= start
    requires fam.objects[Key(NODES, c.0, c.1, id)] == ObjectAt(data, 0, fam.dimensions, id - start)
    ensures CoordsOf(a', fam.dimensions, data, start, id)
  {
  }

  lemma CoordsKept(fam: Family, c: (int, Name), a: seq<int>, a': seq<int>, x: int)
    requires fam.AllCoords(c, a, a') && Key(NODES, c.0, c.1, x) !in fam.objects
    ensures CoordsSame(a, a', fam.dimensions, x)
  {
  }

  // A family with nodes a to b, in one record.
  method OneRange(name: Name, longName: Name, dim: nat, a: int, b: int, before: seq<int>)
    returns (fam: Family, mesh: nat, ghost p: (nat, nat))
    requires name != [] && longName != [] && (dim == 2 || dim == 3) && 1 <= a <= b && |before| == (b - a + 1) * dim
    ensures fresh(fam) && fam.Valid() && mesh < fam.qtyMeshes && fam.dimensions == dim && (mesh, name) in fam.classes
    ensures fam.classes[(mesh, name)].superclass == M_NODE
    ensures fam.objects == NewObjects(NODES, mesh, name, a, b - a + 1, dim, before)
    ensures InOneRecord(fam.objects, fam.places, (mesh, name), a, b, p)
  {
    hide Family.Valid, Family.Reopens, Family.Told, Grows, NewObjects, Defined, InNewRecord, Family.LastIs, InOneRecord;
    fam, mesh := Begin(M_NODE, name, longName, dim);
    NothingDefined((mesh, name));
    ghost var objs0, places0 := fam.objects, fam.places;
    var status;
    ghost var written;
    status, written := fam.DefNodes(mesh, name, a, b, before);
    assert fam.objects == NewObjects(NODES, mesh, name, a, b - a + 1, dim, before);
    p := OneRecord(fam.objects, fam.places, mesh, name, a, b, dim, before, objs0, places0);
  }

  lemma PartOfRecord(objs: Objects, places: map<Key, (nat, nat)>, c: (int, Name), a: int, b: int, start: int, stop: int,
                     p: (nat, nat))
    requires InOneRecord(objs, places, c, a, b, p) && a <= start && stop <= b
    ensures exists r :: InOneRecord(objs, places, c, start, stop, r)
  {
    assert InOneRecord(objs, places, c, start, stop, p);
  }

  method DefineNodes(name: Name, longName: Name, dim: nat, a: int, b: int, before: seq<int>, c: int, d: int, after: seq<int>)
    returns (fam: Family, mesh: nat)
    requires name != [] && longName != [] && (dim == 2 || dim == 3) && 1 <= a <= c <= d <= b
    requires |before| == (b - a + 1) * dim && |after| == (d - c + 1) * dim
    ensures fresh(fam) && fam.Valid() && mesh < fam.qtyMeshes && fam.dimensions == dim && (mesh, name) in fam.classes
    ensures fam.classes[(mesh, name)].superclass == M_NODE
    ensures fam.objects == NewObjects(NODES, mesh, name, a, b - a + 1, dim, before)
                         + NewObjects(NODES, mesh, name, c, d - c + 1, dim, after)
  {
    hide Family.Valid, Family.Reopens, Family.Told, NewObjects, Defined, InNewRecord, InOneRecord, NoneTried;
    ghost var p, written;
    fam, mesh, p := OneRange(name, longName, dim, a, b, before);
    PartOfRecord(fam.objects, fam.places, (mesh, name), a, b, c, d, p);
    var status;
    status, written := fam.DefNodes(mesh, name, c, d, after);
  }

  // Nodes a to b are defined, c to d of them defined again, and all of them are loaded.
  method NodeRun(name: Name, longName: Name, dim: nat, a: int, b: int, before: seq<int>, c: int, d: int, after: seq<int>,
                 coords: array<int>)
    returns (status: GeomStatus)
    requires name != [] && longName != [] && (dim == 2 || dim == 3) && 1 <= a <= c <= d <= b
    requires |before| == (b - a + 1) * dim && |after| == (d - c + 1) * dim && HasCoords(coords.Length, dim, b)
    modifies coords
    ensures status == Ok
    ensures forall id :: c <= id <= d ==> CoordsOf(coords[..], dim, after, c, id)
    ensures forall id :: a <= id < c || d < id <= b ==> CoordsOf(coords[..], dim, before, a, id)
    ensures forall x :: x < a || b < x ==> CoordsSame(old(coords[..]), coords[..], dim, x)
  {
    hide CoordsSame, Family.Valid, NewObjects, CoordsOf, HasCoords, Family.AllCoords, Family.CoordsFit;
    var fam, mesh := DefineNodes(name, longName, dim, a, b, before, c, d, after);
    NodesRoom(fam, mesh, name, dim, a, b, before, c, d, after, coords.Length);
    ghost var cs := coords[..];
    status := fam.LoadNodes(mesh, name, Coords(coords));
    NodesFrom(fam, mesh, name, dim, a, b, before, c, d, after, cs, coords[..]);
  }

  lemma NodesRoom(fam: Family, mesh: nat, name: Name, dim: nat, a: int, b: int, before: seq<int>, c: int, d: int,
                  after: seq<int>, coords: nat)
    requires 1 <= a <= c <= d <= b && fam.dimensions == dim && HasCoords(coords, dim, b)
    requires fam.objects == NewObjects(NODES, mesh, name, a, b - a + 1, dim, before)
                         + NewObjects(NODES, mesh, name, c, d - c + 1, dim, after)
    ensures fam.CoordsFit((mesh, name), coords)
  {
    hide NewObjects, Family.CoordsFit, HasCoords;
    forall id
      ensures Key(NODES, mesh, name, id) in fam.objects <==> a <= id <= b
    {
      TwiceDefined(mesh, name, a, b, before, c, d, after, dim, id);
    }
    RoomForNodes(fam, (mesh, name), coords, b);
  }

  lemma NodesFrom(fam: Family, mesh: nat, name: Name, dim: nat, a: int, b: int, before: seq<int>, c: int, d: int,
                  after: seq<int>, cs: seq<int>, cs': seq<int>)
    requires 1 <= a <= c <= d <= b && fam.dimensions == dim && fam.AllCoords((mesh, name), cs, cs')
    requires fam.objects == NewObjects(NODES, mesh, name, a, b - a + 1, dim, before)
                         + NewObjects(NODES, mesh, name, c, d - c + 1, dim, after)
    ensures forall id :: c <= id <= d ==> CoordsOf(cs', dim, after, c, id)
    ensures forall id :: a <= id < c || d < id <= b ==> CoordsOf(cs', dim, before, a, id)
    ensures forall x :: x < a || b < x ==> CoordsSame(cs, cs', dim, x)
  {
    hide CoordsSame, NewObjects, CoordsOf, Family.AllCoords;
    var cl := (mesh, name);
    forall id | c <= id <= d
      ensures CoordsOf(cs', dim, after, c, id)
    {
      TwiceDefined(mesh, name, a, b, before, c, d, after, dim, id);
      CoordsFrom(fam, cl, cs, cs', id, after, c);
    }
    forall id | a <= id < c || d < id <= b
      ensures CoordsOf(cs', dim, before, a, id)
    {
      TwiceDefined(mesh, name, a, b, before, c, d, after, dim, id);
      CoordsFrom(fam, cl, cs, cs', id, before, a);
    }
    forall x | x < a || b < x
      ensures CoordsSame(cs, cs', dim, x)
    {
      TwiceDefined(mesh, name, a, b, before, c, d, after, dim, x);
      CoordsKept(fam, cl, cs, cs', x);
    }
  }

  // ----- a range that is neither new nor in one record -----

  // Where an earlier range is as long, its record is looked at.
  lemma Tried(fam: Family, c: (int, Name), a: int, b: int, n: int, p: (nat, nat))
    requires fam.Valid() && a <= b && n <= b - a + 1 && InOneRecord(fam.objects, fam.places, c, a, b, p)
    ensures !NoneTried(fam.dirs, |fam.dirs|, 0, c, n)
  {
    PlaceHolds(fam.files, fam.dirs, fam.objects, fam.places, c, a, b, p);
  }

  // Two ranges defined one after the other are in two records.
  lemma TwoRecords(objs: Objects, places: map<Key, (nat, nat)>, places': map<Key, (nat, nat)>, more: Objects,
                   mesh: int, name: Name, a: int, b: int, p: (nat, nat))
    requires InOneRecord(objs, places, (mesh, name), a, b, p) && a <= b && InNewRecord(objs, places, places', more)
    requires Key(NODES, mesh, name, b + 1) in more && forall k | k in more :: k !in objs
    ensures InOneRecord(objs + more, places', (mesh, name), a, b, p)
    ensures Key(NODES, mesh, name, b) in places' && Key(NODES, mesh, name, b + 1) in places'
    ensures places'[Key(NODES, mesh, name, b)] != places'[Key(NODES, mesh, name, b + 1)]
  {
    var q :| places' == places + PlacesOf(more, q) && forall k | k in objs && k in places :: places[k] != q;
    assert Key(NODES, mesh, name, b) in objs;
  }

  lemma NotInOne(objs: Objects, places: map<Key, (nat, nat)>, c: (int, Name), b: int, start: int, stop: int)
    requires start <= b < stop && Key(NODES, c.0, c.1, b) in places && Key(NODES, c.0, c.1, b + 1) in places
    requires places[Key(NODES, c.0, c.1, b)] != places[Key(NODES, c.0, c.1, b + 1)]
    ensures forall r :: !InOneRecord(objs, places, c, start, stop, r)
  {
  }

  lemma Apart(mesh: int, name: Name, a: int, b: int, before: seq<int>, d: int, more: seq<int>, w: nat, c: int)
    requires a <= c <= b < d
    ensures
      var first := NewObjects(NODES, mesh, name, a, b - a + 1, w, before);
      var second := NewObjects(NODES, mesh, name, b + 1, d - b, w, more);
      && Key(NODES, mesh, name, b + 1) in second && (forall k | k in second :: k !in first)
      && Defined(first + second, (mesh, name), c)
  {
    assert Key(NODES, mesh, name, c) in NewObjects(NODES, mesh, name, a, b - a + 1, w, before);
  }

  method DefineTwice(name: Name, longName: Name, dim: nat, a: int, b: int, before: seq<int>, d: int, more: seq<int>,
                     ghost c: int, ghost e: int)
    returns (fam: Family, mesh: nat, ghost p: (nat, nat))
    requires name != [] && longName != [] && (dim == 2 || dim == 3) && 1 <= a <= c <= b < e <= d
    requires |before| == (b - a + 1) * dim && |more| == (d - b) * dim
    ensures fresh(fam) && fam.Valid() && mesh < fam.qtyMeshes && fam.dimensions == dim && (mesh, name) in fam.classes
    ensures fam.classes[(mesh, name)].superclass == M_NODE && Defined(fam.objects, (mesh, name), c)
    ensures fam.objects == NewObjects(NODES, mesh, name, a, b - a + 1, dim, before)
                         + NewObjects(NODES, mesh, name, b + 1, d - b, dim, more)
    ensures InOneRecord(fam.objects, fam.places, (mesh, name), a, b, p)
    ensures forall r :: !InOneRecord(fam.objects, fam.places, (mesh, name), c, e, r)
  {
    hide Family.Valid, Family.Reopens, Family.Told, NewObjects, Defined, InNewRecord, InOneRecord, NoneTried, PlacesOf, IsData;
    fam, mesh, p := OneRange(name, longName, dim, a, b, before);
    ghost var objs1, places1 := fam.objects, fam.places;
    NewDefines(NODES, mesh, name, a, b - a + 1, dim, before);
    var status;
    ghost var written;
    status, written := fam.DefNodes(mesh, name, b + 1, d, more);
    Apart(mesh, name, a, b, before, d, more, dim, c);
    TwoRecords(objs1, places1, fam.places, NewObjects(NODES, mesh, name, b + 1, d - b, dim, more), mesh, name, a, b, p);
    NotInOne(fam.objects, fam.places, (mesh, name), b, c, e);
  }

  // Nodes a to b are defined, then b + 1 to d. Nodes c to e, some of the first and some of the
  // second, cannot be defined again: nothing is written, and yet the answer is Ok.
  method CrossingRun(name: Name, longName: Name, dim: nat, a: int, b: int, before: seq<int>, d: int, more: seq<int>,
                     c: int, e: int, after: seq<int>)
    returns (fam: Family, mesh: nat, status: GeomStatus)
    requires name != [] && longName != [] && (dim == 2 || dim == 3) && 1 <= a <= c <= b < e <= d && e - c <= b - a
    requires |before| == (b - a + 1) * dim && |more| == (d - b) * dim && |after| == (e - c + 1) * dim
    ensures status == Ok && fresh(fam) && fam.Valid()
    ensures fam.objects == NewObjects(NODES, mesh, name, a, b - a + 1, dim, before)
                         + NewObjects(NODES, mesh, name, b + 1, d - b, dim, more)
  {
    hide Family.Valid, Family.Reopens, Family.Told, NewObjects, Defined, InNewRecord, InOneRecord, NoneTried;
    ghost var p, written;
    fam, mesh, p := DefineTwice(name, longName, dim, a, b, before, d, more, c, e);
    Tried(fam, (mesh, name), a, b, e - c + 1, p);
    status, written := fam.DefNodes(mesh, name, c, e, after);
  }
}
