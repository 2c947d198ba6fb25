/**
 Records of mesh objects in the files of a family, as 4-byte words: a header with the range of
 ids, and then the words of each object in turn. What a directory entry says about a record,
 and what keeps it true.
 */
module MeshRecords {
  import opened MeshRanges
  import opened Directory

  // What is stored for one object: its coordinates, or its nodes, material and part.
  datatype Key = Key(kind: int, mesh: int, name: Name, id: int)

  type Objects = map<Key, seq<int>>

  const M_NODE := 1
  const M_TRUSS := 2
  const M_INODE := 15
  const CONN_WORDS: seq<nat> := [0, 0, 4, 5, 5, 6, 6, 7, 8, 10, 0, 0, 0, 3, 12, 3]

  predicate IsData(kind: int) {
    kind == NODES || kind == ELEM_CONNS
  }

  // The tags before the objects: the two ids, and for elements also the superclass and the
  // number of blocks.
  function HeadLength(kind: int): nat {
    if kind == NODES then 2 else 4
  }

  function Header(kind: int, superclass: nat, start: int, stop: int): (h: seq<int>)
    ensures |h| == HeadLength(kind)
  {
    if kind == NODES then [start, stop] else [superclass, 1, start, stop]
  }

  // Words for one object.
  function WordsEach(kind: int, superclass: nat, dimensions: nat): nat {
    if kind == NODES then dimensions else if superclass < 16 then CONN_WORDS[superclass] else 0
  }

  // The words of an element are its nodes, its material and its part, by superclass: truss, beam,
  // triangle, quadrilateral, tetrahedron, pyramid, wedge, hexahedron, particle, tetrahedron of
  // ten nodes, and integrated node.
  lemma ElementWidths(dimensions: nat)
    ensures forall s: nat | s < 16 ::
      WordsEach(1, s, dimensions) ==
        match s
        case 2 => 2 + 2 case 3 => 3 + 2 case 4 => 3 + 2 case 5 => 4 + 2 case 6 => 4 + 2 case 7 => 5 + 2
        case 8 => 6 + 2 case 9 => 8 + 2 case 13 => 1 + 2 case 14 => 10 + 2 case 15 => 1 + 2
        case _ => 0
    ensures forall s: nat :: WordsEach(0, s, dimensions) == dimensions
  {
  }

  // Where object i begins, in w words each from base on.
  function Slot(base: nat, w: nat, i: nat): nat {
    base + i * w
  }

  lemma SlotNext(base: nat, w: nat, i: nat)
    ensures Slot(base, w, i + 1) == Slot(base, w, i) + w
  {
  }

  lemma NoLess(n: nat, w: nat)
    ensures n * w >= 0
  {
  }

  lemma SlotOrder(base: nat, w: nat, i: nat, n: nat)
    requires i <= n
    ensures base <= Slot(base, w, i) <= Slot(base, w, n)
    ensures i < n ==> Slot(base, w, i) + w <= Slot(base, w, n)
  {
    assert n * w == i * w + (n - i) * w;
    NoLess(n - i, w);
    if i < n {
      assert (n - i) * w == w + (n - i - 1) * w;
      NoLess(n - i - 1, w);
    }
  }

  lemma SlotShift(base: nat, w: nat, i: nat, j: nat)
    ensures Slot(Slot(base, w, i), w, j) == Slot(base, w, i + j)
  {
    assert (i + j) * w == i * w + j * w;
  }

  lemma SlotFrom(base: nat, w: nat, i: nat)
    ensures Slot(base, w, i) == base + Slot(0, w, i) == base + i * w
  {
  }

  // The words of object i.
  function ObjectAt(file: seq<int>, base: nat, w: nat, i: nat): seq<int> {
    if Slot(base, w, i) + w <= |file| then file[Slot(base, w, i)..Slot(base, w, i) + w] else []
  }

  // Where the record ends.
  function RecordEnd(e: Entry, w: nat): nat
    requires e.offset >= 0 && e.modifier2 >= 0
  {
    Slot(e.offset / 4 + HeadLength(e.kind), w, e.modifier2)
  }

  function KeyOf(e: Entry, name: Name, id: int): Key {
    Key(e.kind, e.modifier1, name, id)
  }

  // Object i of the record holds the words in objs.
  ghost predicate Stored(file: seq<int>, e: Entry, name: Name, w: nat, start: int, i: nat, objs: Objects)
    requires e.offset >= 0
  {
    && KeyOf(e, name, start + i) in objs
    && objs[KeyOf(e, name, start + i)] == ObjectAt(file, e.offset / 4 + HeadLength(e.kind), w, i)
  }

  // The entry e leads to a record of objects start, start + 1, ..., whose words are those in objs.
  ghost predicate RecordGood(file: seq<int>, e: Entry, name: Name, superclass: nat, w: nat, start: int, objs: Objects) {
    && e.offset >= 0 && e.offset % 4 == 0 && e.modifier2 >= 1
    && var o := e.offset / 4;
       var base := o + HeadLength(e.kind);
       && RecordEnd(e, w) <= |file| && base <= |file|
       && file[o..base] == Header(e.kind, superclass, start, start + e.modifier2 - 1)
       && forall i: nat | i < e.modifier2 :: Stored(file, e, name, w, start, i, objs)
  }

  // The same file up to the end of the record, and the same objects, leave it good.
  lemma RecordExtends(file: seq<int>, file': seq<int>, e: Entry, name: Name, superclass: nat, w: nat, start: int,
                      objs: Objects, objs': Objects)
    requires RecordGood(file, e, name, superclass, w, start, objs)
    requires file <= file' && forall k | k in objs :: k in objs' && objs'[k] == objs[k]
    ensures RecordGood(file', e, name, superclass, w, start, objs')
  {
    var base := e.offset / 4 + HeadLength(e.kind);
    assert file'[e.offset / 4..base] == file[e.offset / 4..base];
    forall i: nat | i < e.modifier2
      ensures Stored(file', e, name, w, start, i, objs')
    {
      assert Stored(file, e, name, w, start, i, objs);
      SlotOrder(base, w, i, e.modifier2);
    }
  }

  // Words from a to z are overwritten, outside the record.
  lemma RecordApart(file: seq<int>, file': seq<int>, a: nat, z: nat, e: Entry, name: Name, superclass: nat, w: nat,
                    start: int, objs: Objects, objs': Objects)
    requires RecordGood(file, e, name, superclass, w, start, objs)
    requires |file'| == |file| && a <= z <= |file| && file'[..a] == file[..a] && file'[z..] == file[z..]
    requires z <= e.offset / 4 || RecordEnd(e, w) <= a
    requires forall k: Key | k in objs && k.kind == e.kind && k.mesh == e.modifier1 && k.name == name
                             && start <= k.id < start + e.modifier2 :: k in objs' && objs'[k] == objs[k]
    ensures RecordGood(file', e, name, superclass, w, start, objs')
  {
    var o := e.offset / 4;
    var base := o + HeadLength(e.kind);
    SlotOrder(base, w, 0, e.modifier2);
    SameSlice(file, file', a, z, o, base);
    forall i: nat | i < e.modifier2
      ensures Stored(file', e, name, w, start, i, objs')
    {
      assert Stored(file, e, name, w, start, i, objs);
      SlotOrder(base, w, i, e.modifier2);
      SameSlice(file, file', a, z, Slot(base, w, i), Slot(base, w, i) + w);
    }
  }

  lemma SameSlice(file: seq<int>, file': seq<int>, a: nat, z: nat, x: nat, y: nat)
    requires |file'| == |file| && a <= z <= |file| && file'[..a] == file[..a] && file'[z..] == file[z..]
    requires x <= y <= |file| && (z <= x || y <= a)
    ensures file'[x..y] == file[x..y]
  {
    forall k | x <= k < y
      ensures file'[k] == file[k]
    {
      if k < a {
        assert file'[k] == file'[..a][k] && file[k] == file[..a][k];
      } else {
        assert file'[k] == file'[z..][k - z] && file[k] == file[z..][k - z];
      }
    }
  }

  // ----- the entries of one file -----

  // A file's directory in memory.
  datatype Dir = Dir(entries: seq<Entry>, names: seq<Name>, commits: int)

  // A class of mesh objects: its superclass, and the ids defined so far.
  datatype Class = Class(superclass: nat, ranges: seq<Range>)

  type Classes = map<(int, Name), Class>

  // The names of an entry follow those of the entries before it.
  function NameIndex(d: Dir, j: nat): int
    requires j <= |d.entries|
  {
    TotalStrings(d.entries[..j])
  }

  function NameOf(d: Dir, j: nat): Name
    requires j <= |d.entries|
  {
    var n := NameIndex(d, j);
    if 0 <= n < |d.names| then d.names[n] else []
  }

  // The first id of the record that e leads to.
  function StartAt(file: seq<int>, e: Entry): int {
    var x := e.offset / 4 + HeadLength(e.kind) - 2;
    if 0 <= x < |file| then file[x] else 0
  }

  function WordsOf(e: Entry, name: Name, classes: Classes, dimensions: nat): nat {
    var c := (e.modifier1, name);
    WordsEach(e.kind, if c in classes then classes[c].superclass else 0, dimensions)
  }

  // A data entry leads to its record, which it measures in bytes.
  ghost predicate EntryGood(file: seq<int>, d: Dir, j: nat, classes: Classes, dimensions: nat, objs: Objects)
    requires j < |d.entries|
  {
    var e := d.entries[j];
    var name := NameOf(d, j);
    var c := (e.modifier1, name);
    IsData(e.kind) ==>
      && 0 <= NameIndex(d, j) < |d.names| && c in classes
      && RecordGood(file, e, name, classes[c].superclass, WordsOf(e, name, classes, dimensions), StartAt(file, e), objs)
      && e.offset + e.length == 4 * RecordEnd(e, WordsOf(e, name, classes, dimensions))
  }

  // What the entries of a file lead to follows one another; some lead to nothing.
  predicate Tidy(file: seq<int>, d: Dir) {
    && (forall j | 0 <= j < |d.entries| ::
          0 <= d.entries[j].length && (d.entries[j].length > 0 ==> Within(d.entries[j], file)))
    && (forall j, k | 0 <= j < k < |d.entries| && d.entries[j].length > 0 && d.entries[k].length > 0 ::
          d.entries[j].offset + d.entries[j].length <= d.entries[k].offset)
  }

  predicate Within(e: Entry, file: seq<int>) {
    0 <= e.offset && e.offset + e.length <= 4 * |file|
  }

  // Classes keep their superclasses.
  predicate ClassesKept(classes: Classes, classes': Classes) {
    forall c | c in classes :: c in classes' && classes'[c].superclass == classes[c].superclass
  }

  predicate ObjectsKept(objs: Objects, objs': Objects) {
    forall k | k in objs :: k in objs' && objs'[k] == objs[k]
  }

  predicate DirExtends(d: Dir, d': Dir) {
    d.entries <= d'.entries && d.names <= d'.names
  }

  lemma SameName(d: Dir, d': Dir, j: nat)
    requires DirExtends(d, d') && j < |d.entries| && 0 <= NameIndex(d, j) < |d.names|
    ensures NameIndex(d', j) == NameIndex(d, j) && NameOf(d', j) == NameOf(d, j)
  {
    assert d'.entries[..j] == d.entries[..j];
  }

  lemma SameStart(file: seq<int>, file': seq<int>, e: Entry, name: Name, superclass: nat, w: nat, objs: Objects)
    requires RecordGood(file, e, name, superclass, w, StartAt(file, e), objs) && file <= file'
    ensures StartAt(file', e) == StartAt(file, e)
  {
  }

  lemma EntryExtends(file: seq<int>, d: Dir, file': seq<int>, d': Dir, j: nat,
                     classes: Classes, classes': Classes, dimensions: nat, objs: Objects, objs': Objects)
    requires j < |d.entries| && EntryGood(file, d, j, classes, dimensions, objs)
    requires file <= file' && DirExtends(d, d') && ClassesKept(classes, classes') && ObjectsKept(objs, objs')
    ensures EntryGood(file', d', j, classes', dimensions, objs')
  {
    hide RecordGood;
    var e := d.entries[j];
    if IsData(e.kind) {
      SameName(d, d', j);
      var name := NameOf(d, j);
      var c := (e.modifier1, name);
      var w := WordsOf(e, name, classes, dimensions);
      SameStart(file, file', e, name, classes[c].superclass, w, objs);
      RecordExtends(file, file', e, name, classes[c].superclass, w, StartAt(file, e), objs, objs');
    }
  }

  lemma TidyExtends(file: seq<int>, d: Dir, file': seq<int>, d': Dir)
    requires Tidy(file, d) && file <= file' && d'.entries == d.entries
    ensures Tidy(file', d')
  {
  }

  // ----- a new record -----

  // The objects of a new record.
  ghost function NewObjects(kind: int, mesh: int, name: Name, start: int, n: nat, w: nat, data: seq<int>): (m: Objects)
    ensures forall k :: k in m <==> k.kind == kind && k.mesh == mesh && k.name == name && start <= k.id < start + n
    ensures forall k | k in m :: m[k] == ObjectAt(data, 0, w, k.id - start)
  {
    map id: int | start <= id < start + n :: Key(kind, mesh, name, id) := ObjectAt(data, 0, w, id - start)
  }

  function NewEntry(kind: int, mesh: int, n: int, file: seq<int>, words: seq<int>): Entry {
    Entry(kind, mesh, n, 1, 4 * |file|, 4 * |words|)
  }

  // The record at the end of a file, and its entry.
  lemma NewRecord(file: seq<int>, kind: int, mesh: int, name: Name, superclass: nat, w: nat, start: int, n: nat,
                  data: seq<int>, objs: Objects)
    requires n >= 1 && |data| == n * w
    requires forall k | k in NewObjects(kind, mesh, name, start, n, w, data) ::
      k in objs && objs[k] == NewObjects(kind, mesh, name, start, n, w, data)[k]
    ensures
      var words := Header(kind, superclass, start, start + n - 1) + data;
      var e := NewEntry(kind, mesh, n, file, words);
      var file' := file + words;
      && RecordGood(file', e, name, superclass, w, start, objs) && StartAt(file', e) == start
      && e.offset + e.length == 4 * RecordEnd(e, w)
  {
    var h := Header(kind, superclass, start, start + n - 1);
    var words := h + data;
    var e := NewEntry(kind, mesh, n, file, words);
    var file' := file + words;
    var front := file + h;
    assert e.offset / 4 == |file| && e.offset + e.length == 4 * |file'|;
    Appended(file, h, data);
    SlotFrom(|front|, w, n);
    hide Stored, NewObjects, Slot, Header;
    forall i: nat | i < n
      ensures Stored(file', e, name, w, start, i, objs)
    {
      NewStored(file, h, kind, mesh, name, w, start, n, data, objs, e, i);
    }
  }

  lemma NewStored(file: seq<int>, h: seq<int>, kind: int, mesh: int, name: Name, w: nat, start: int, n: nat,
                  data: seq<int>, objs: Objects, e: Entry, i: nat)
    requires |data| == n * w && |h| == HeadLength(kind) && i < n && ObjectsKept(NewObjects(kind, mesh, name, start, n, w, data), objs)
    requires e == NewEntry(kind, mesh, n, file, h + data)
    ensures Stored(file + (h + data), e, name, w, start, i, objs)
  {
    hide ObjectAt, NewObjects;
    Appended(file, h, data);
    ObjectShift(file + h, data, w, i, n);
    assert KeyOf(e, name, start + i) in NewObjects(kind, mesh, name, start, n, w, data);
  }

  lemma Appended(file: seq<int>, h: seq<int>, data: seq<int>)
    ensures
      var file' := file + (h + data);
      && file' == (file + h) + data && file'[|file|..|file| + |h|] == h
      && (|h| >= 2 ==> file'[|file| + |h| - 2] == h[|h| - 2])
  {
  }

  lemma ObjectShift(front: seq<int>, data: seq<int>, w: nat, i: nat, n: nat)
    requires i < n && |data| == n * w
    ensures ObjectAt(front + data, |front|, w, i) == ObjectAt(data, 0, w, i)
  {
    SlotOrder(0, w, i, n);
    var x := Slot(0, w, i);
    assert Slot(|front|, w, i) == |front| + x;
    assert (front + data)[|front| + x..|front| + x + w] == data[x..x + w];
  }
}
