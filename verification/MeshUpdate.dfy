/**
 Overwriting node coordinates in place: some objects of one record get new words, and nothing
 else in any file changes.
 */
module MeshUpdate {
  import opened MeshRanges
  import opened Directory
  import opened MeshRecords
  import opened MeshLoad
  import opened MeshFiles

  // The words from x on are replaced.
  function Overwrite(file: seq<int>, x: nat, data: seq<int>): (file': seq<int>)
    requires x + |data| <= |file|
    ensures |file'| == |file| && file'[..x] == file[..x] && file'[x + |data|..] == file[x + |data|..]
    ensures file'[x..x + |data|] == data
  {
    file[..x] + data + file[x + |data|..]
  }

  // Objects from i on, n of them, in a record at base, are overwritten.
  lemma ObjectOverwritten(file: seq<int>, base: nat, w: nat, i: nat, n: nat, data: seq<int>, m: nat, total: nat)
    requires i + n <= total && |data| == n * w && Slot(base, w, total) <= |file| && m < total
    ensures Slot(base, w, i) + |data| <= |file|
    ensures
      var file' := Overwrite(file, Slot(base, w, i), data);
      ObjectAt(file', base, w, m) == if i <= m < i + n then ObjectAt(data, 0, w, m - i) else ObjectAt(file, base, w, m)
  {
    hide Slot, Overwrite, ObjectAt;
    SlotShift(base, w, i, n);
    SlotOrder(base, w, i + n, total);
    SlotFrom(Slot(base, w, i), w, n);
    if i <= m < i + n {
      InsideObject(file, base, w, i, n, data, m);
    } else {
      OutsideObject(file, base, w, i, n, data, m, total);
    }
  }

  lemma InsideObject(file: seq<int>, base: nat, w: nat, i: nat, n: nat, data: seq<int>, m: nat)
    requires i <= m < i + n && |data| == n * w && Slot(base, w, i) + |data| <= |file|
    ensures ObjectAt(Overwrite(file, Slot(base, w, i), data), base, w, m) == ObjectAt(data, 0, w, m - i)
  {
    hide Slot, Overwrite;
    var x := Slot(base, w, i);
    var z := Slot(0, w, m - i);
    SlotShift(base, w, i, m - i);
    SlotFrom(x, w, m - i);
    SlotOrder(0, w, m - i, n);
    SlotFrom(0, w, n);
    assert Slot(base, w, m) == x + z && z + w <= |data|;
    InnerSlice(Overwrite(file, x, data), x, data, z, w);
  }

  lemma OutsideObject(file: seq<int>, base: nat, w: nat, i: nat, n: nat, data: seq<int>, m: nat, total: nat)
    requires m < i || i + n <= m
    requires |data| == n * w && Slot(base, w, i) + |data| <= |file| && Slot(base, w, total) <= |file| && m < total
    ensures ObjectAt(Overwrite(file, Slot(base, w, i), data), base, w, m) == ObjectAt(file, base, w, m)
  {
    hide Slot, Overwrite;
    var x := Slot(base, w, i);
    var y := Slot(base, w, m);
    SlotOrder(base, w, m, total);
    if m < i {
      SlotOrder(base, w, m, i);
    } else {
      SlotShift(base, w, i, n);
      SlotFrom(x, w, n);
      SlotOrder(base, w, i + n, m);
    }
    SameSlice(file, Overwrite(file, x, data), x, x + |data|, y, y + w);
  }

  lemma InnerSlice(file: seq<int>, x: nat, data: seq<int>, z: nat, w: nat)
    requires x + |data| <= |file| && file[x..x + |data|] == data && z + w <= |data|
    ensures file[x + z..x + z + w] == data[z..z + w]
  {
    var u, v := file[x + z..x + z + w], data[z..z + w];
    forall k | 0 <= k < w
      ensures u[k] == v[k]
    {
      assert file[x..x + |data|][z + k] == file[x + z + k];
    }
  }

  // The objects of the record at e after n of them, from start on, have been overwritten.
  ghost predicate ObjectsAfter(e: Entry, name: Name, w: nat, start0: int, objs: Objects, start: int, n: nat, data: seq<int>,
                               objs': Objects)
  {
    forall id | start0 <= id < start0 + e.modifier2 ::
      KeyOf(e, name, id) in objs' && objs'[KeyOf(e, name, id)] ==
        if start <= id < start + n then ObjectAt(data, 0, w, id - start) else
          if KeyOf(e, name, id) in objs then objs[KeyOf(e, name, id)] else []
  }

  // The record itself, afterwards.
  lemma RecordOverwritten(file: seq<int>, e: Entry, name: Name, superclass: nat, w: nat, start0: int, objs: Objects,
                          start: int, n: nat, data: seq<int>, objs': Objects)
    requires RecordGood(file, e, name, superclass, w, start0, objs)
    requires start0 <= start && start + n <= start0 + e.modifier2 && |data| == n * w
    requires ObjectsAfter(e, name, w, start0, objs, start, n, data, objs')
    ensures
      var x := Slot(e.offset / 4 + HeadLength(e.kind), w, start - start0);
      x + |data| <= |file| && RecordGood(Overwrite(file, x, data), e, name, superclass, w, start0, objs')
  {
    var base := e.offset / 4 + HeadLength(e.kind);
    var i := start - start0;
    ObjectOverwritten(file, base, w, i, n, data, 0, e.modifier2);
    SlotOrder(base, w, 0, i);
    var x := Slot(base, w, i);
    var file' := Overwrite(file, x, data);
    SameSlice(file, file', x, x + |data|, e.offset / 4, base);
    hide ObjectAt, Overwrite;
    forall m: nat | m < e.modifier2
      ensures Stored(file', e, name, w, start0, m, objs')
    {
      assert Stored(file, e, name, w, start0, m, objs);
      var id := start0 + m;
      assert KeyOf(e, name, id) in objs';
      ObjectOverwritten(file, base, w, i, n, data, m, e.modifier2);
    }
  }

  lemma StartOfRecord(file: seq<int>, e: Entry, name: Name, superclass: nat, w: nat, start: int, objs: Objects)
    requires RecordGood(file, e, name, superclass, w, start, objs)
    ensures StartAt(file, e) == start
  {
    var o := e.offset / 4;
    var base := o + HeadLength(e.kind);
    assert file[o..base][base - 2 - o] == file[base - 2];
  }

  // What an update of ids start, ... in the record of entry j of file f means.
  ghost predicate Updates(files: seq<seq<int>>, dirs: seq<Dir>, classes: Classes, dimensions: nat,
                          f: nat, j: nat, start: int, n: nat, data: seq<int>)
  {
    && f < |files| == |dirs| && j < |dirs[f].entries|
    && var e := dirs[f].entries[j];
       && IsData(e.kind) && n >= 1
       && StartAt(files[f], e) <= start && start + n <= StartAt(files[f], e) + e.modifier2
       && |data| == n * WordsOf(e, NameOf(dirs[f], j), classes, dimensions)
  }

  ghost function Updated(dirs: seq<Dir>, classes: Classes, dimensions: nat, objs: Objects,
                         f: nat, j: nat, start: int, n: nat, data: seq<int>): Objects
    requires f < |dirs| && j < |dirs[f].entries|
  {
    var e := dirs[f].entries[j];
    var name := NameOf(dirs[f], j);
    objs + NewObjects(e.kind, e.modifier1, name, start, n, WordsOf(e, name, classes, dimensions), data)
  }

  function UpdateAt(file: seq<int>, d: Dir, j: nat, classes: Classes, dimensions: nat, start: int): nat
    requires j < |d.entries|
  {
    var e := d.entries[j];
    var i := start - StartAt(file, e);
    if e.offset >= 0 && i >= 0 then Slot(e.offset / 4 + HeadLength(e.kind), WordsOf(e, NameOf(d, j), classes, dimensions), i)
    else 0
  }

  // Another record has none of the updated objects.
  lemma OtherKeys(files: seq<seq<int>>, dirs: seq<Dir>, classes: Classes, dimensions: nat, objs: Objects,
                  places: map<Key, (nat, nat)>, f: nat, j: nat, start: int, n: nat, data: seq<int>, g: nat, h: nat, id: int)
    requires Updates(files, dirs, classes, dimensions, f, j, start, n, data) && PlacesUnique(files, dirs, places)
    requires g < |files| && h < |dirs[g].entries| && (g, h) != (f, j) && IsData(dirs[g].entries[h].kind)
    requires InRecordOf(files[g], dirs[g].entries[h], id)
    ensures
      var k := KeyOf(dirs[g].entries[h], NameOf(dirs[g], h), id);
      k in objs ==> k in Updated(dirs, classes, dimensions, objs, f, j, start, n, data)
                    && Updated(dirs, classes, dimensions, objs, f, j, start, n, data)[k] == objs[k]
  {
    var e := dirs[f].entries[j];
    var k := KeyOf(dirs[g].entries[h], NameOf(dirs[g], h), id);
    assert InPlace(dirs, places, g, h, id);
    var more := NewObjects(e.kind, e.modifier1, NameOf(dirs[f], j), start, n,
                           WordsOf(e, NameOf(dirs[f], j), classes, dimensions), data);
    if k in more {
      assert InRecordOf(files[f], e, id);
      assert InPlace(dirs, places, f, j, id);
    }
  }

  // The records of one file lie apart.
  lemma RecordsApart(file: seq<int>, d: Dir, j: nat, h: nat, classes: Classes, dimensions: nat, objs: Objects)
    requires Tidy(file, d) && j < |d.entries| && h < |d.entries| && j != h
    requires EntryGood(file, d, j, classes, dimensions, objs) && EntryGood(file, d, h, classes, dimensions, objs)
    requires IsData(d.entries[j].kind) && IsData(d.entries[h].kind)
    ensures
      var ej, eh := d.entries[j], d.entries[h];
      && ej.offset >= 0 && eh.offset >= 0
      && (RecordEnd(ej, WordsOf(ej, NameOf(d, j), classes, dimensions)) <= eh.offset / 4
          || RecordEnd(eh, WordsOf(eh, NameOf(d, h), classes, dimensions)) <= ej.offset / 4)
  {
    hide Slot, RecordGood;
    GoodOffset(file, d, j, classes, dimensions, objs);
    GoodOffset(file, d, h, classes, dimensions, objs);
  }

  lemma GoodOffset(file: seq<int>, d: Dir, j: nat, classes: Classes, dimensions: nat, objs: Objects)
    requires j < |d.entries| && EntryGood(file, d, j, classes, dimensions, objs) && IsData(d.entries[j].kind)
    ensures
      var e := d.entries[j];
      && e.offset >= 0 && e.offset % 4 == 0 && e.modifier2 >= 1 && e.length > 0
      && e.offset + e.length == 4 * RecordEnd(e, WordsOf(e, NameOf(d, j), classes, dimensions))
  {
    var e := d.entries[j];
    SlotOrder(e.offset / 4 + HeadLength(e.kind), WordsOf(e, NameOf(d, j), classes, dimensions), 0, e.modifier2);
  }

  lemma UpdatedValue(dirs: seq<Dir>, classes: Classes, dimensions: nat, objs: Objects,
                     f: nat, j: nat, start: int, n: nat, data: seq<int>, id: int)
    requires f < |dirs| && j < |dirs[f].entries|
    requires KeyOf(dirs[f].entries[j], NameOf(dirs[f], j), id) in objs
    ensures
      var e, name := dirs[f].entries[j], NameOf(dirs[f], j);
      var k := KeyOf(e, name, id);
      var objs' := Updated(dirs, classes, dimensions, objs, f, j, start, n, data);
      k in objs' && objs'[k] ==
        if start <= id < start + n then ObjectAt(data, 0, WordsOf(e, name, classes, dimensions), id - start) else objs[k]
  {
  }

  // The updated entry is good.
  lemma UpdatedEntry(files: seq<seq<int>>, dirs: seq<Dir>, classes: Classes, dimensions: nat, objs: Objects,
                     f: nat, j: nat, start: int, n: nat, data: seq<int>)
    requires Updates(files, dirs, classes, dimensions, f, j, start, n, data)
    requires EntryGood(files[f], dirs[f], j, classes, dimensions, objs)
    ensures
      var e := dirs[f].entries[j];
      var x := UpdateAt(files[f], dirs[f], j, classes, dimensions, start);
      && x + |data| <= |files[f]|
      && EntryGood(Overwrite(files[f], x, data), dirs[f], j, classes, dimensions,
                   Updated(dirs, classes, dimensions, objs, f, j, start, n, data))
      && StartAt(Overwrite(files[f], x, data), e) == StartAt(files[f], e)
      && e.offset / 4 <= x && x + |data| <= RecordEnd(e, WordsOf(e, NameOf(dirs[f], j), classes, dimensions))
  {
    var e, name := dirs[f].entries[j], NameOf(dirs[f], j);
    var w := WordsOf(e, name, classes, dimensions);
    var start0 := StartAt(files[f], e);
    var superclass := classes[(e.modifier1, name)].superclass;
    var base := e.offset / 4 + HeadLength(e.kind);
    var objs' := Updated(dirs, classes, dimensions, objs, f, j, start, n, data);
    assert RecordGood(files[f], e, name, superclass, w, start0, objs);
    UpdatedObjects(files[f], dirs, classes, dimensions, objs, f, j, start, n, data);
    hide RecordGood, Overwrite, Updated, NameOf, Slot, StartAt, EntryGood, WordsOf;
    RecordOverwritten(files[f], e, name, superclass, w, start0, objs, start, n, data, objs');
    WithinRecord(base, w, start - start0, n, e.modifier2);
    var file' := Overwrite(files[f], Slot(base, w, start - start0), data);
    StartOfRecord(file', e, name, superclass, w, start0, objs');
    EntryIsGood(files[f], file', dirs[f], j, classes, dimensions, objs, objs');
  }

  lemma UpdatedObjects(file: seq<int>, dirs: seq<Dir>, classes: Classes, dimensions: nat, objs: Objects,
                       f: nat, j: nat, start: int, n: nat, data: seq<int>)
    requires f < |dirs| && j < |dirs[f].entries| && EntryGood(file, dirs[f], j, classes, dimensions, objs)
    requires IsData(dirs[f].entries[j].kind)
    ensures
      var e, name := dirs[f].entries[j], NameOf(dirs[f], j);
      ObjectsAfter(e, name, WordsOf(e, name, classes, dimensions), StartAt(file, e), objs, start, n, data,
                   Updated(dirs, classes, dimensions, objs, f, j, start, n, data))
  {
    var e, name := dirs[f].entries[j], NameOf(dirs[f], j);
    var w := WordsOf(e, name, classes, dimensions);
    var start0 := StartAt(file, e);
    var objs' := Updated(dirs, classes, dimensions, objs, f, j, start, n, data);
    assert RecordGood(file, e, name, classes[(e.modifier1, name)].superclass, w, start0, objs);
    hide Updated, NameOf, Slot, StartAt, EntryGood, ObjectAt;
    forall id | start0 <= id < start0 + e.modifier2
      ensures KeyOf(e, name, id) in objs && KeyOf(e, name, id) in objs'
      ensures objs'[KeyOf(e, name, id)] ==
        if start <= id < start + n then ObjectAt(data, 0, w, id - start) else objs[KeyOf(e, name, id)]
    {
      assert Stored(file, e, name, w, start0, id - start0, objs);
      UpdatedValue(dirs, classes, dimensions, objs, f, j, start, n, data, id);
    }
  }

  lemma WithinRecord(base: nat, w: nat, i: nat, n: nat, total: nat)
    requires i + n <= total
    ensures base <= Slot(base, w, i) && Slot(base, w, i) + n * w <= Slot(base, w, total)
  {
    SlotShift(base, w, i, n);
    SlotOrder(base, w, i + n, total);
    SlotOrder(base, w, 0, i);
  }

  lemma EntryIn(files: seq<seq<int>>, dirs: seq<Dir>, classes: Classes, dimensions: nat, objs: Objects, f: nat, j: nat)
    requires FilesGood(files, dirs, classes, dimensions, objs) && |dirs| == |files| && f < |files| && j < |dirs[f].entries|
    ensures EntryGood(files[f], dirs[f], j, classes, dimensions, objs) && Tidy(files[f], dirs[f])
  {
    hide EntryGood, Tidy;
  }

  // Another entry stays good, and begins with the same id.
  lemma OtherEntry(files: seq<seq<int>>, dirs: seq<Dir>, classes: Classes, dimensions: nat, objs: Objects,
                   places: map<Key, (nat, nat)>, f: nat, j: nat, start: int, n: nat, data: seq<int>, g: nat, h: nat)
    requires Updates(files, dirs, classes, dimensions, f, j, start, n, data) && PlacesUnique(files, dirs, places)
    requires FilesGood(files, dirs, classes, dimensions, objs)
    requires g < |files| && h < |dirs[g].entries| && (g, h) != (f, j)
    ensures UpdateAt(files[f], dirs[f], j, classes, dimensions, start) + |data| <= |files[f]|
    ensures
      var x := UpdateAt(files[f], dirs[f], j, classes, dimensions, start);
      var file' := if g == f then Overwrite(files[f], x, data) else files[g];
      && EntryGood(file', dirs[g], h, classes, dimensions, Updated(dirs, classes, dimensions, objs, f, j, start, n, data))
      && (IsData(dirs[g].entries[h].kind) ==> StartAt(file', dirs[g].entries[h]) == StartAt(files[g], dirs[g].entries[h]))
  {
    hide FilesGood, EntryGood, Tidy, NameOf, StartAt, WordsOf, Overwrite, Updated, UpdateAt, PlacesUnique;
    EntryIn(files, dirs, classes, dimensions, objs, f, j);
    EntryIn(files, dirs, classes, dimensions, objs, g, h);
    UpdatedEntry(files, dirs, classes, dimensions, objs, f, j, start, n, data);
    var x := UpdateAt(files[f], dirs[f], j, classes, dimensions, start);
    var objs' := Updated(dirs, classes, dimensions, objs, f, j, start, n, data);
    if !IsData(dirs[g].entries[h].kind) {
      OtherIsGood(if g == f then Overwrite(files[f], x, data) else files[g], dirs[g], h, classes, dimensions, objs');
    } else if g != f {
      hide *;
      OtherObjects(files, dirs, classes, dimensions, objs, places, f, j, start, n, data, g, h);
      GoodOffset(files[g], dirs[g], h, classes, dimensions, objs);
      EntryApart(files[g], files[g], dirs[g], h, classes, dimensions, objs, objs', 0, 0);
    } else {
      hide *;
      OtherObjects(files, dirs, classes, dimensions, objs, places, f, j, start, n, data, g, h);
      RecordsApart(files[f], dirs[f], j, h, classes, dimensions, objs);
      GoodOffset(files[g], dirs[g], h, classes, dimensions, objs);
      EntryApart(files[f], Overwrite(files[f], x, data), dirs[f], h, classes, dimensions, objs, objs', x, x + |data|);
    }
  }

  // What is written for the objects of the record of e is the same.
  ghost predicate ObjectsLike(e: Entry, name: Name, start: int, objs: Objects, objs': Objects) {
    forall k: Key | k in objs && k.kind == e.kind && k.mesh == e.modifier1 && k.name == name
                    && start <= k.id < start + e.modifier2 :: k in objs' && objs'[k] == objs[k]
  }

  lemma OtherObjects(files: seq<seq<int>>, dirs: seq<Dir>, classes: Classes, dimensions: nat, objs: Objects,
                     places: map<Key, (nat, nat)>, f: nat, j: nat, start: int, n: nat, data: seq<int>, g: nat, h: nat)
    requires Updates(files, dirs, classes, dimensions, f, j, start, n, data) && PlacesUnique(files, dirs, places)
    requires g < |files| && h < |dirs[g].entries| && (g, h) != (f, j) && IsData(dirs[g].entries[h].kind)
    ensures
      var e := dirs[g].entries[h];
      ObjectsLike(e, NameOf(dirs[g], h), StartAt(files[g], e), objs,
                  Updated(dirs, classes, dimensions, objs, f, j, start, n, data))
  {
    hide NameOf, StartAt, Updated, PlacesUnique, WordsOf;
    var e, name := dirs[g].entries[h], NameOf(dirs[g], h);
    var objs' := Updated(dirs, classes, dimensions, objs, f, j, start, n, data);
    forall k: Key | k in objs && k.kind == e.kind && k.mesh == e.modifier1 && k.name == name
                    && StartAt(files[g], e) <= k.id < StartAt(files[g], e) + e.modifier2
      ensures k in objs' && objs'[k] == objs[k]
    {
      assert k == KeyOf(e, name, k.id);
      OtherKeys(files, dirs, classes, dimensions, objs, places, f, j, start, n, data, g, h, k.id);
    }
  }

  // Words from a to z are overwritten, outside the record of the entry.
  lemma EntryApart(file: seq<int>, file': seq<int>, d: Dir, h: nat, classes: Classes, dimensions: nat, objs: Objects,
                   objs': Objects, a: nat, z: nat)
    requires h < |d.entries| && EntryGood(file, d, h, classes, dimensions, objs) && IsData(d.entries[h].kind)
    requires |file'| == |file| && a <= z <= |file| && file'[..a] == file[..a] && file'[z..] == file[z..]
    requires
      var e, name := d.entries[h], NameOf(d, h);
      && e.offset >= 0 && e.modifier2 >= 0
      && (z <= e.offset / 4 || RecordEnd(e, WordsOf(e, name, classes, dimensions)) <= a)
      && ObjectsLike(e, name, StartAt(file, e), objs, objs')
    ensures EntryGood(file', d, h, classes, dimensions, objs') && StartAt(file', d.entries[h]) == StartAt(file, d.entries[h])
  {
    var e, name := d.entries[h], NameOf(d, h);
    var w := WordsOf(e, name, classes, dimensions);
    var superclass := classes[(e.modifier1, name)].superclass;
    hide RecordGood, RecordEnd, StartAt, WordsOf, NameOf;
    RecordApart(file, file', a, z, e, name, superclass, w, StartAt(file, e), objs, objs');
    StartOfRecord(file', e, name, superclass, w, StartAt(file, e), objs');
    EntryIsGood(file, file', d, h, classes, dimensions, objs, objs');
  }

  lemma EntryIsGood(file: seq<int>, file': seq<int>, d: Dir, h: nat, classes: Classes, dimensions: nat, objs: Objects, objs': Objects)
    requires h < |d.entries| && EntryGood(file, d, h, classes, dimensions, objs) && IsData(d.entries[h].kind)
    requires StartAt(file', d.entries[h]) == StartAt(file, d.entries[h])
    requires
      var e, name := d.entries[h], NameOf(d, h);
      RecordGood(file', e, name, classes[(e.modifier1, name)].superclass, WordsOf(e, name, classes, dimensions),
                 StartAt(file, e), objs')
    ensures EntryGood(file', d, h, classes, dimensions, objs')
  {
    hide RecordGood;
  }

  // The whole family after an update.
  lemma FamilyUpdated(files: seq<seq<int>>, dirs: seq<Dir>, classes: Classes, dimensions: nat, objs: Objects,
                      places: map<Key, (nat, nat)>, f: nat, j: nat, start: int, n: nat, data: seq<int>)
    requires Updates(files, dirs, classes, dimensions, f, j, start, n, data)
    requires FilesGood(files, dirs, classes, dimensions, objs) && PlacesGood(files, dirs, objs, places)
    requires PlacesUnique(files, dirs, places)
    ensures UpdateAt(files[f], dirs[f], j, classes, dimensions, start) + |data| <= |files[f]|
    ensures
      var x := UpdateAt(files[f], dirs[f], j, classes, dimensions, start);
      var files' := files[f := Overwrite(files[f], x, data)];
      var objs' := Updated(dirs, classes, dimensions, objs, f, j, start, n, data);
      && FilesGood(files', dirs, classes, dimensions, objs') && PlacesGood(files', dirs, objs', places)
      && PlacesUnique(files', dirs, places) && objs'.Keys == objs.Keys
      && forall g: nat, h: nat | g < |files| && h < |dirs[g].entries| && IsData(dirs[g].entries[h].kind) ::
           StartAt(files'[g], dirs[g].entries[h]) == StartAt(files[g], dirs[g].entries[h])
  {
    assert EntryGood(files[f], dirs[f], j, classes, dimensions, objs);
    UpdatedEntry(files, dirs, classes, dimensions, objs, f, j, start, n, data);
    var x := UpdateAt(files[f], dirs[f], j, classes, dimensions, start);
    var files' := files[f := Overwrite(files[f], x, data)];
    var objs' := Updated(dirs, classes, dimensions, objs, f, j, start, n, data);
    UpdatedKeys(files, dirs, classes, dimensions, objs, f, j, start, n, data);
    forall g: nat | g < |files|
      ensures Tidy(files'[g], dirs[g])
    {
      assert Tidy(files[g], dirs[g]);
    }
    hide EntryGood, Updated, UpdateAt, Tidy, Overwrite, NameOf, PlacesGood, PlacesUnique;
    forall g: nat, h: nat | g < |files'| && h < |dirs[g].entries|
      ensures EntryGood(files'[g], dirs[g], h, classes, dimensions, objs')
      ensures IsData(dirs[g].entries[h].kind) ==> StartAt(files'[g], dirs[g].entries[h]) == StartAt(files[g], dirs[g].entries[h])
    {
      if (g, h) != (f, j) {
        OtherEntry(files, dirs, classes, dimensions, objs, places, f, j, start, n, data, g, h);
      }
    }
    SamePlaces(files, files', dirs, objs, objs', places);
  }

  // Where the records begin with the same ids, the places stay right.
  lemma SamePlaces(files: seq<seq<int>>, files': seq<seq<int>>, dirs: seq<Dir>, objs: Objects, objs': Objects,
                   places: map<Key, (nat, nat)>)
    requires |files'| == |files| == |dirs| && objs'.Keys == objs.Keys
    requires PlacesGood(files, dirs, objs, places) && PlacesUnique(files, dirs, places)
    requires forall g: nat, h: nat | g < |files| && h < |dirs[g].entries| && IsData(dirs[g].entries[h].kind) ::
      StartAt(files'[g], dirs[g].entries[h]) == StartAt(files[g], dirs[g].entries[h])
    ensures PlacesGood(files', dirs, objs', places) && PlacesUnique(files', dirs, places)
  {
    hide NameOf, InPlace, StartAt;
  }

  // An update defines nothing new.
  lemma UpdatedKeys(files: seq<seq<int>>, dirs: seq<Dir>, classes: Classes, dimensions: nat, objs: Objects,
                    f: nat, j: nat, start: int, n: nat, data: seq<int>)
    requires Updates(files, dirs, classes, dimensions, f, j, start, n, data)
    requires FilesGood(files, dirs, classes, dimensions, objs)
    ensures Updated(dirs, classes, dimensions, objs, f, j, start, n, data).Keys == objs.Keys
  {
    var e := dirs[f].entries[j];
    var name := NameOf(dirs[f], j);
    var more := NewObjects(e.kind, e.modifier1, name, start, n, WordsOf(e, name, classes, dimensions), data);
    hide FilesGood;
    forall k | k in more
      ensures k in objs
    {
      assert k == KeyOf(e, name, k.id) && InRecordOf(files[f], e, k.id);
      CoveredObject(files, dirs, classes, dimensions, objs, f, j, k.id);
    }
  }

  // The ids of the range are all in the record at p.
  ghost predicate InOneRecord(objs: Objects, places: map<Key, (nat, nat)>, c: (int, Name), start: int, stop: int, p: (nat, nat)) {
    forall id | start <= id <= stop ::
      Key(NODES, c.0, c.1, id) in objs && Key(NODES, c.0, c.1, id) in places && places[Key(NODES, c.0, c.1, id)] == p
  }

  predicate NodesFor(d: Dir, j: nat, c: (int, Name))
    requires j < |d.entries|
  {
    EntryFor(d, j, NODES, c)
  }

  predicate HoldsRange(file: seq<int>, e: Entry, start: int, stop: int) {
    InRecordOf(file, e, start) && InRecordOf(file, e, stop)
  }

  // No record of the class before entry j of file i holds the range.
  ghost predicate NoneHolds(files: seq<seq<int>>, dirs: seq<Dir>, i: nat, j: nat, c: (int, Name), start: int, stop: int)
    requires |dirs| == |files|
  {
    forall f: nat, g: nat | f < |files| && g < |dirs[f].entries| && (f < i || (f == i && g < j)) && NodesFor(dirs[f], g, c) ::
      !HoldsRange(files[f], dirs[f].entries[g], start, stop)
  }

  lemma NoneStillHolds(files: seq<seq<int>>, dirs: seq<Dir>, files': seq<seq<int>>, dirs': seq<Dir>,
                       classes: Classes, dimensions: nat, objs: Objects, i: nat, j: nat, c: (int, Name), start: int, stop: int)
    requires Grows(files, dirs, files', dirs') && FilesGood(files, dirs, classes, dimensions, objs)
    requires SameEntries(dirs, dirs') && |files'| == |files| && NoneHolds(files, dirs, i, j, c, start, stop)
    ensures NoneHolds(files', dirs', i, j, c, start, stop)
  {
    hide FilesGood, StartAt, NameOf;
    forall f: nat, g: nat | f < |files'| && g < |dirs'[f].entries| && (f < i || (f == i && g < j)) && NodesFor(dirs'[f], g, c)
      ensures !HoldsRange(files'[f], dirs'[f].entries[g], start, stop)
    {
      StartKept(files, dirs, files', dirs', classes, dimensions, objs, f, g);
      assert NodesFor(dirs[f], g, c);
    }
  }

  lemma OneMore(files: seq<seq<int>>, dirs: seq<Dir>, i: nat, j: nat, c: (int, Name), start: int, stop: int)
    requires |dirs| == |files| && i < |files| && j < |dirs[i].entries| && NoneHolds(files, dirs, i, j, c, start, stop)
    requires NodesFor(dirs[i], j, c) ==> !HoldsRange(files[i], dirs[i].entries[j], start, stop)
    ensures NoneHolds(files, dirs, i, j + 1, c, start, stop)
  {
    hide HoldsRange, NodesFor;
  }

  lemma RecordTooSmall(files: seq<seq<int>>, dirs: seq<Dir>, i: nat, j: nat, c: (int, Name), start: int, stop: int)
    requires |dirs| == |files| && i < |files| && j < |dirs[i].entries| && NoneHolds(files, dirs, i, j, c, start, stop)
    requires !(NodesFor(dirs[i], j, c) && dirs[i].entries[j].modifier2 >= stop - start + 1) && start <= stop
    ensures NoneHolds(files, dirs, i, j + 1, c, start, stop)
  {
    OneMore(files, dirs, i, j, c, start, stop);
  }

  // A record of nodes: its two ids.
  lemma NodeParts(files: seq<seq<int>>, dirs: seq<Dir>, classes: Classes, dimensions: nat, objs: Objects,
                  f: nat, j: nat, c: (int, Name))
    requires FilesGood(files, dirs, classes, dimensions, objs) && f < |files| && j < |dirs[f].entries|
    requires NodesFor(dirs[f], j, c)
    ensures
      var file, e := files[f], dirs[f].entries[j];
      var o := e.offset / 4;
      && 0 <= o && o + 2 <= |file| && e.modifier2 >= 1 && c in classes
      && file[o] == StartAt(file, e) && file[o + 1] == StartAt(file, e) + e.modifier2 - 1
      && Slot(o + 2, dimensions, e.modifier2) <= |file|
      && forall id | file[o] <= id < file[o] + e.modifier2 ::
           Key(NODES, c.0, c.1, id) in objs
           && objs[Key(NODES, c.0, c.1, id)] == ObjectOf(file, o + 2, dimensions, file[o], id)
  {
    var file, e := files[f], dirs[f].entries[j];
    var o := e.offset / 4;
    assert EntryGood(file, dirs[f], j, classes, dimensions, objs);
    var start := StartAt(file, e);
    var h := file[o..o + 2];
    assert h == Header(NODES, classes[c].superclass, start, start + e.modifier2 - 1);
    assert h[0] == file[o] && h[1] == file[o + 1];
    forall id | start <= id < start + e.modifier2
      ensures Key(NODES, c.0, c.1, id) in objs
           && objs[Key(NODES, c.0, c.1, id)] == ObjectOf(file, o + 2, dimensions, start, id)
    {
      assert Stored(file, e, c.1, dimensions, start, id - start, objs);
    }
  }

  lemma NodesForSame(d: Dir, d': Dir, j: nat, c: (int, Name))
    requires d'.entries == d.entries && d'.names == d.names && j < |d.entries|
    ensures NodesFor(d', j, c) == NodesFor(d, j, c)
  {
  }

  // The place of a range in one record.
  lemma PlaceHolds(files: seq<seq<int>>, dirs: seq<Dir>, objs: Objects, places: map<Key, (nat, nat)>, c: (int, Name),
                   start: int, stop: int, p: (nat, nat))
    requires PlacesGood(files, dirs, objs, places) && InOneRecord(objs, places, c, start, stop, p) && start <= stop
    ensures p.0 < |files| == |dirs| && p.1 < |dirs[p.0].entries|
    ensures NodesFor(dirs[p.0], p.1, c) && HoldsRange(files[p.0], dirs[p.0].entries[p.1], start, stop)
  {
    assert PlaceGood(files, dirs, Key(NODES, c.0, c.1, start), p);
    assert PlaceGood(files, dirs, Key(NODES, c.0, c.1, stop), p);
  }

  // No entry before (i, j) is for n nodes of the class or more.
  ghost predicate NoneTried(dirs: seq<Dir>, i: nat, j: nat, c: (int, Name), n: int) {
    forall f: nat, g: nat | f < |dirs| && g < |dirs[f].entries| && (f < i || (f == i && g < j)) && NodesFor(dirs[f], g, c) ::
      dirs[f].entries[g].modifier2 < n
  }

  lemma NoneTriedYet(dirs: seq<Dir>, c: (int, Name), n: int)
    ensures NoneTried(dirs, 0, 0, c, n)
  {
  }

  lemma NoneTriedNext(dirs: seq<Dir>, dirs': seq<Dir>, i: nat, c: (int, Name), n: int)
    requires SameEntries(dirs, dirs') && i < |dirs|
    ensures NoneTried(dirs, i, |dirs'[i].entries|, c, n) <==> NoneTried(dirs, i + 1, 0, c, n)
  {
  }

  lemma TriedOrNot(dirs: seq<Dir>, dirs': seq<Dir>, f: nat, j: nat, c: (int, Name), n: int)
    requires SameEntries(dirs, dirs') && f < |dirs'| && j < |dirs'[f].entries|
    ensures NoneTried(dirs, f, j + 1, c, n) <==>
      NoneTried(dirs, f, j, c, n) && !(NodesFor(dirs'[f], j, c) && dirs'[f].entries[j].modifier2 >= n)
  {
    assert dirs'[f].entries == dirs[f].entries && dirs'[f].names == dirs[f].names;
    hide NameOf;
    NodesForSame(dirs[f], dirs'[f], j, c);
  }

  lemma NoneYet(files: seq<seq<int>>, dirs: seq<Dir>, c: (int, Name), start: int, stop: int)
    requires |dirs| == |files|
    ensures NoneHolds(files, dirs, 0, 0, c, start, stop)
  {
  }

  lemma NoneNext(files: seq<seq<int>>, dirs: seq<Dir>, i: nat, c: (int, Name), start: int, stop: int)
    requires |dirs| == |files| && i < |files| && NoneHolds(files, dirs, i, |dirs[i].entries|, c, start, stop)
    ensures NoneHolds(files, dirs, i + 1, 0, c, start, stop)
  {
  }

  // All ids of a range that a record holds are in it.
  lemma RecordHolds(files: seq<seq<int>>, dirs: seq<Dir>, classes: Classes, dimensions: nat, objs: Objects,
                    places: map<Key, (nat, nat)>, f: nat, j: nat, c: (int, Name), start: int, stop: int)
    requires |dirs| == |files| && FilesGood(files, dirs, classes, dimensions, objs) && PlacesUnique(files, dirs, places)
    requires f < |files| && j < |dirs[f].entries| && NodesFor(dirs[f], j, c)
    requires HoldsRange(files[f], dirs[f].entries[j], start, stop)
    ensures InOneRecord(objs, places, c, start, stop, (f, j))
  {
    FilesCount(files, dirs, classes, dimensions, objs);
    hide FilesGood;
    forall id | start <= id <= stop
      ensures Key(NODES, c.0, c.1, id) in objs && Key(NODES, c.0, c.1, id) in places
              && places[Key(NODES, c.0, c.1, id)] == (f, j)
    {
      assert InRecordOf(files[f], dirs[f].entries[j], id);
      CoveredObject(files, dirs, classes, dimensions, objs, f, j, id);
      assert InPlace(dirs, places, f, j, id);
    }
  }

  lemma SameIds(c: (int, Name), cl: Class, objs: Objects, objs': Objects)
    requires ClassGood(c, cl, objs) && objs'.Keys == objs.Keys
    ensures ClassGood(c, cl, objs')
  {
    forall id
      ensures Defined(objs', c, id) <==> Defined(objs, c, id)
    {
      assert Key(NODES, c.0, c.1, id) in objs'.Keys <==> Key(NODES, c.0, c.1, id) in objs.Keys;
      assert Key(ELEM_CONNS, c.0, c.1, id) in objs'.Keys <==> Key(ELEM_CONNS, c.0, c.1, id) in objs.Keys;
    }
  }
}
