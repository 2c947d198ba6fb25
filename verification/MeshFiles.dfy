/**
 The files of a family with their directories: that every entry leads to its record, that
 every object is in one record, and what appending and overwriting leave of that.
 */
module MeshFiles {
  import opened MeshRanges
  import opened Directory
  import opened MeshRecords
  import opened MeshLoad

  // The id is defined in the class, as a node or as an element.
  predicate Defined(objs: Objects, c: (int, Name), id: int) {
    Key(NODES, c.0, c.1, id) in objs || Key(ELEM_CONNS, c.0, c.1, id) in objs
  }

  // The ranges of a class are those of its objects.
  ghost predicate ClassGood(c: (int, Name), cl: Class, objs: Objects) {
    && cl.superclass < 16 && Canonical(cl.ranges)
    && forall id :: Has(cl.ranges, id) <==> Defined(objs, c, id)
  }

  // The entry at place (f, j) is the one whose record holds the object k.
  ghost predicate PlaceGood(files: seq<seq<int>>, dirs: seq<Dir>, k: Key, p: (nat, nat)) {
    && p.0 < |files| == |dirs| && p.1 < |dirs[p.0].entries|
    && var e := dirs[p.0].entries[p.1];
       && e.kind == k.kind && e.modifier1 == k.mesh && NameOf(dirs[p.0], p.1) == k.name
       && StartAt(files[p.0], e) <= k.id < StartAt(files[p.0], e) + e.modifier2
  }

  ghost predicate FilesGood(files: seq<seq<int>>, dirs: seq<Dir>, classes: Classes, dimensions: nat, objs: Objects) {
    && |dirs| == |files|
    && (forall f | 0 <= f < |files| :: Tidy(files[f], dirs[f]))
    && forall f, j: nat | 0 <= f < |files| && j < |dirs[f].entries| ::
         EntryGood(files[f], dirs[f], j, classes, dimensions, objs)
  }

  ghost predicate PlacesGood(files: seq<seq<int>>, dirs: seq<Dir>, objs: Objects, places: map<Key, (nat, nat)>) {
    forall k | k in objs :: IsData(k.kind) && k in places && PlaceGood(files, dirs, k, places[k])
  }

  // Files and directories only grow.
  predicate Grows(files: seq<seq<int>>, dirs: seq<Dir>, files': seq<seq<int>>, dirs': seq<Dir>) {
    && |files| <= |files'| && |dirs| == |files| && |dirs'| == |files'|
    && forall f | 0 <= f < |files| :: files[f] <= files'[f] && DirExtends(dirs[f], dirs'[f])
  }

  lemma PlaceGrows(files: seq<seq<int>>, dirs: seq<Dir>, files': seq<seq<int>>, dirs': seq<Dir>, k: Key, p: (nat, nat),
                   classes: Classes, dimensions: nat, objs: Objects)
    requires Grows(files, dirs, files', dirs') && PlaceGood(files, dirs, k, p) && IsData(k.kind)
    requires EntryGood(files[p.0], dirs[p.0], p.1, classes, dimensions, objs)
    ensures PlaceGood(files', dirs', k, p)
  {
    var d := dirs[p.0];
    var e := d.entries[p.1];
    var c := (e.modifier1, NameOf(d, p.1));
    SameName(d, dirs'[p.0], p.1);
    SameStart(files[p.0], files'[p.0], e, c.1, classes[c].superclass, WordsOf(e, c.1, classes, dimensions), objs);
  }

  lemma PlacesGrow(files: seq<seq<int>>, dirs: seq<Dir>, files': seq<seq<int>>, dirs': seq<Dir>,
                   classes: Classes, dimensions: nat, objs: Objects, places: map<Key, (nat, nat)>)
    requires Grows(files, dirs, files', dirs') && PlacesGood(files, dirs, objs, places)
    requires FilesGood(files, dirs, classes, dimensions, objs)
    ensures PlacesGood(files', dirs', objs, places)
  {
    forall k | k in objs
      ensures PlaceGood(files', dirs', k, places[k])
    {
      PlaceGrows(files, dirs, files', dirs', k, places[k], classes, dimensions, objs);
    }
  }

  // An old entry stays good.
  lemma OldEntry(files: seq<seq<int>>, dirs: seq<Dir>, files': seq<seq<int>>, dirs': seq<Dir>, f: nat, j: nat,
                 classes: Classes, classes': Classes, dimensions: nat, objs: Objects, objs': Objects)
    requires Grows(files, dirs, files', dirs') && FilesGood(files, dirs, classes, dimensions, objs)
    requires f < |files| && j < |dirs[f].entries|
    requires ClassesKept(classes, classes') && ObjectsKept(objs, objs')
    ensures EntryGood(files'[f], dirs'[f], j, classes', dimensions, objs')
  {
    hide EntryGood, Tidy;
    EntryExtends(files[f], dirs[f], files'[f], dirs'[f], j, classes, classes', dimensions, objs, objs');
  }

  // The last file gets one more record and entry, and the objects with it.
  lemma RecordAdded(files: seq<seq<int>>, dirs: seq<Dir>, classes: Classes, dimensions: nat, objs: Objects,
                    classes': Classes, objs': Objects, words: seq<int>, e: Entry, name: Name)
    requires files != [] && FilesGood(files, dirs, classes, dimensions, objs)
    requires ClassesKept(classes, classes') && ObjectsKept(objs, objs')
    requires var n := |files| - 1; e.offset == 4 * |files[n]| && e.length == 4 * |words| && e.stringQty == 1
    requires TotalStrings(dirs[|files| - 1].entries) == |dirs[|files| - 1].names|
    requires
      var n := |files| - 1;
      var d := Dir(dirs[n].entries + [e], dirs[n].names + [name], dirs[n].commits);
      EntryGood(files[n] + words, d, |dirs[n].entries|, classes', dimensions, objs')
    ensures
      var n := |files| - 1;
      var d := Dir(dirs[n].entries + [e], dirs[n].names + [name], dirs[n].commits);
      && Grows(files, dirs, files[n := files[n] + words], dirs[n := d])
      && FilesGood(files[n := files[n] + words], dirs[n := d], classes', dimensions, objs')
  {
    hide EntryGood;
    var n := |files| - 1;
    var d := Dir(dirs[n].entries + [e], dirs[n].names + [name], dirs[n].commits);
    var files', dirs' := files[n := files[n] + words], dirs[n := d];
    assert Grows(files, dirs, files', dirs');
    RecordTidy(files[n], dirs[n], words, e, name);
    hide Tidy;
    forall f, j: nat | 0 <= f < |files'| && j < |dirs'[f].entries|
      ensures EntryGood(files'[f], dirs'[f], j, classes', dimensions, objs')
    {
      if f < n || j < |dirs[n].entries| {
        OldEntry(files, dirs, files', dirs', f, j, classes, classes', dimensions, objs, objs');
      }
    }
  }

  lemma RecordTidy(file: seq<int>, d: Dir, words: seq<int>, e: Entry, name: Name)
    requires Tidy(file, d) && e.offset == 4 * |file| && e.length == 4 * |words|
    ensures Tidy(file + words, Dir(d.entries + [e], d.names + [name], d.commits))
  {
  }

  // Objects that are all in one record.
  ghost function PlacesOf(more: Objects, p: (nat, nat)): (m: map<Key, (nat, nat)>)
    ensures m.Keys == more.Keys && forall k | k in more :: m[k] == p
  {
    map k | k in more :: p
  }

  // Each object is in one record only.
  ghost predicate PlacesUnique(files: seq<seq<int>>, dirs: seq<Dir>, places: map<Key, (nat, nat)>)
    requires |dirs| == |files|
  {
    forall f: nat, j: nat, id | f < |files| && j < |dirs[f].entries| && IsData(dirs[f].entries[j].kind)
                              && InRecordOf(files[f], dirs[f].entries[j], id) ::
      InPlace(dirs, places, f, j, id)
  }

  predicate InPlace(dirs: seq<Dir>, places: map<Key, (nat, nat)>, f: nat, j: nat, id: int)
    requires f < |dirs| && j < |dirs[f].entries|
  {
    var k := KeyOf(dirs[f].entries[j], NameOf(dirs[f], j), id);
    k in places && places[k] == (f, j)
  }

  // Appending leaves the old entries in their places.
  lemma UniqueGrows(files: seq<seq<int>>, dirs: seq<Dir>, files': seq<seq<int>>, dirs': seq<Dir>,
                    classes: Classes, dimensions: nat, objs: Objects, places: map<Key, (nat, nat)>, f: nat, j: nat, id: int)
    requires Grows(files, dirs, files', dirs') && FilesGood(files, dirs, classes, dimensions, objs)
    requires PlacesUnique(files, dirs, places)
    requires f < |files| && j < |dirs[f].entries| && IsData(dirs[f].entries[j].kind)
    requires InRecordOf(files'[f], dirs[f].entries[j], id)
    ensures InPlace(dirs', places, f, j, id) && InRecordOf(files[f], dirs[f].entries[j], id)
  {
    EntryKept(files, dirs, files', dirs', classes, dimensions, objs, f, j);
    assert InPlace(dirs, places, f, j, id);
  }

  // An old entry and its range are the same after growing.
  lemma EntryKept(files: seq<seq<int>>, dirs: seq<Dir>, files': seq<seq<int>>, dirs': seq<Dir>,
                  classes: Classes, dimensions: nat, objs: Objects, f: nat, j: nat)
    requires Grows(files, dirs, files', dirs') && FilesGood(files, dirs, classes, dimensions, objs)
    requires f < |files| && j < |dirs[f].entries| && IsData(dirs[f].entries[j].kind)
    ensures j < |dirs'[f].entries| && dirs'[f].entries[j] == dirs[f].entries[j] && NameOf(dirs'[f], j) == NameOf(dirs[f], j)
    ensures StartAt(files'[f], dirs[f].entries[j]) == StartAt(files[f], dirs[f].entries[j])
  {
    assert EntryGood(files[f], dirs[f], j, classes, dimensions, objs);
    var e := dirs[f].entries[j];
    var c := (e.modifier1, NameOf(dirs[f], j));
    SameName(dirs[f], dirs'[f], j);
    SameStart(files[f], files'[f], e, c.1, classes[c].superclass, WordsOf(e, c.1, classes, dimensions), objs);
  }

  lemma UniqueSame(files: seq<seq<int>>, dirs: seq<Dir>, files': seq<seq<int>>, dirs': seq<Dir>,
                   classes: Classes, dimensions: nat, objs: Objects, places: map<Key, (nat, nat)>)
    requires Grows(files, dirs, files', dirs') && FilesGood(files, dirs, classes, dimensions, objs)
    requires PlacesUnique(files, dirs, places)
    requires forall f | 0 <= f < |files'| :: if f < |files| then |dirs'[f].entries| == |dirs[f].entries| else dirs'[f].entries == []
    ensures PlacesUnique(files', dirs', places)
  {
    hide FilesGood, InPlace;
    forall f: nat, j: nat, id | f < |files'| && j < |dirs'[f].entries| && IsData(dirs'[f].entries[j].kind)
                              && InRecordOf(files'[f], dirs'[f].entries[j], id)
      ensures InPlace(dirs', places, f, j, id)
    {
      UniqueGrows(files, dirs, files', dirs', classes, dimensions, objs, places, f, j, id);
    }
  }

  lemma UniqueAdded(files: seq<seq<int>>, dirs: seq<Dir>, files': seq<seq<int>>, dirs': seq<Dir>,
                    classes: Classes, dimensions: nat, objs: Objects, places: map<Key, (nat, nat)>, more: Objects,
                    last: nat, j0: nat)
    requires Grows(files, dirs, files', dirs') && FilesGood(files, dirs, classes, dimensions, objs)
    requires PlacesUnique(files, dirs, places) && forall k | k in more :: k !in objs
    requires |files'| == |files| && last < |files| && j0 == |dirs[last].entries| && |dirs'[last].entries| == j0 + 1
    requires forall f | 0 <= f < |files| && f != last :: |dirs'[f].entries| == |dirs[f].entries|
    requires forall id | InRecordOf(files'[last], dirs'[last].entries[j0], id) ::
      KeyOf(dirs'[last].entries[j0], NameOf(dirs'[last], j0), id) in more
    ensures PlacesUnique(files', dirs', places + PlacesOf(more, (last, j0)))
  {
    hide FilesGood, InPlace;
    var places' := places + PlacesOf(more, (last, j0));
    forall f: nat, j: nat, id | f < |files'| && j < |dirs'[f].entries| && IsData(dirs'[f].entries[j].kind)
                              && InRecordOf(files'[f], dirs'[f].entries[j], id)
      ensures InPlace(dirs', places', f, j, id)
    {
      if f == last && j == j0 {
        NewInPlace(dirs', places, more, last, j0, id);
      } else {
        UniqueGrows(files, dirs, files', dirs', classes, dimensions, objs, places, f, j, id);
        EntryKept(files, dirs, files', dirs', classes, dimensions, objs, f, j);
        CoveredObject(files, dirs, classes, dimensions, objs, f, j, id);
        OldInPlace(dirs', places, more, last, j0, f, j, id);
      }
    }
  }

  lemma NewInPlace(dirs: seq<Dir>, places: map<Key, (nat, nat)>, more: Objects, last: nat, j0: nat, id: int)
    requires last < |dirs| && j0 < |dirs[last].entries|
    requires KeyOf(dirs[last].entries[j0], NameOf(dirs[last], j0), id) in more
    ensures InPlace(dirs, places + PlacesOf(more, (last, j0)), last, j0, id)
  {
  }

  lemma OldInPlace(dirs: seq<Dir>, places: map<Key, (nat, nat)>, more: Objects, last: nat, j0: nat, f: nat, j: nat, id: int)
    requires f < |dirs| && j < |dirs[f].entries| && InPlace(dirs, places, f, j, id)
    requires KeyOf(dirs[f].entries[j], NameOf(dirs[f], j), id) !in more
    ensures InPlace(dirs, places + PlacesOf(more, (last, j0)), f, j, id)
  {
  }

  // The objects of a record are there.
  lemma CoveredObject(files: seq<seq<int>>, dirs: seq<Dir>, classes: Classes, dimensions: nat, objs: Objects,
                      f: nat, j: nat, id: int)
    requires FilesGood(files, dirs, classes, dimensions, objs) && f < |files| && j < |dirs[f].entries|
    requires IsData(dirs[f].entries[j].kind) && InRecordOf(files[f], dirs[f].entries[j], id)
    ensures KeyOf(dirs[f].entries[j], NameOf(dirs[f], j), id) in objs
  {
    assert EntryGood(files[f], dirs[f], j, classes, dimensions, objs);
    var e := dirs[f].entries[j];
    var name := NameOf(dirs[f], j);
    var start := StartAt(files[f], e);
    assert Stored(files[f], e, name, WordsOf(e, name, classes, dimensions), start, id - start, objs);
  }

  // A file is written in words of four bytes.
  function FileWords(b: seq<int>): seq<int> {
    seq(|b| / 4, i requires 0 <= i < |b| / 4 => Number(b[4 * i..4 * i + 4]))
  }

  // The new objects are those of the new range.
  lemma NewIds(c: (int, Name), cl: Class, kind: int, start: int, n: nat, more: Objects, objs: Objects, rs: seq<Range>)
    requires ClassGood(c, cl, objs) && IsData(kind)
    requires forall k :: k in more <==> k.kind == kind && k.mesh == c.0 && k.name == c.1 && start <= k.id < start + n
    requires !Meets(cl.ranges, start, start + n - 1) && IsUnion(cl.ranges, start, start + n - 1, rs)
    ensures ClassGood(c, cl.(ranges := rs), objs + more)
    ensures ObjectsKept(objs, objs + more) && forall k | k in more :: k !in objs
    ensures forall c' , cl' | c' != c && ClassGood(c', cl', objs) :: ClassGood(c', cl', objs + more)
  {
    forall id | start <= id < start + n
      ensures !Defined(objs, c, id)
    {
    }
    forall k | k in more
      ensures k !in objs
    {
      assert !Defined(objs, c, k.id) && k == Key(kind, c.0, c.1, k.id);
    }
    forall id
      ensures Has(rs, id) <==> Defined(objs + more, c, id)
    {
      assert Has(rs, id) <==> Has(cl.ranges, id) || start <= id <= start + n - 1;
      assert Key(kind, c.0, c.1, id) in more <==> start <= id < start + n;
    }
  }

  lemma NewEntryGood(file: seq<int>, d: Dir, kind: int, mesh: int, name: Name, start: int, n: nat, data: seq<int>,
                     classes: Classes, dimensions: nat, objs: Objects)
    requires IsData(kind) && (mesh, name) in classes && n >= 1
    requires |data| == n * WordsEach(kind, classes[(mesh, name)].superclass, dimensions)
    requires TotalStrings(d.entries) == |d.names|
    requires
      var w := WordsEach(kind, classes[(mesh, name)].superclass, dimensions);
      var more := NewObjects(kind, mesh, name, start, n, w, data);
      forall k | k in more :: k in objs && objs[k] == more[k]
    ensures
      var words := Header(kind, classes[(mesh, name)].superclass, start, start + n - 1) + data;
      var e := NewEntry(kind, mesh, n, file, words);
      var d' := Dir(d.entries + [e], d.names + [name], d.commits);
      EntryGood(file + words, d', |d.entries|, classes, dimensions, objs)
      && NameOf(d', |d.entries|) == name && StartAt(file + words, e) == start
  {
    var s := classes[(mesh, name)].superclass;
    var w := WordsEach(kind, s, dimensions);
    var words := Header(kind, s, start, start + n - 1) + data;
    var e := NewEntry(kind, mesh, n, file, words);
    var d' := Dir(d.entries + [e], d.names + [name], d.commits);
    assert d'.entries[..|d.entries|] == d.entries;
    hide RecordGood, Header, RecordEnd;
    NewRecord(file, kind, mesh, name, s, w, start, n, data, objs);
  }

  lemma NewPlaces(files: seq<seq<int>>, dirs: seq<Dir>, more: Objects, p: (nat, nat), kind: int, mesh: int, name: Name,
                  start: int, n: nat)
    requires IsData(kind) && p.0 < |files| == |dirs| && p.1 < |dirs[p.0].entries|
    requires forall k :: k in more <==> k.kind == kind && k.mesh == mesh && k.name == name && start <= k.id < start + n
    requires
      var e := dirs[p.0].entries[p.1];
      e.kind == kind && e.modifier1 == mesh && e.modifier2 == n && NameOf(dirs[p.0], p.1) == name
      && StartAt(files[p.0], e) == start
    ensures forall k | k in more :: IsData(k.kind) && PlaceGood(files, dirs, k, p)
  {
  }

  lemma GrowsOn(files0: seq<seq<int>>, dirs0: seq<Dir>, files1: seq<seq<int>>, dirs1: seq<Dir>,
                files2: seq<seq<int>>, dirs2: seq<Dir>)
    requires Grows(files0, dirs0, files1, dirs1) && Grows(files1, dirs1, files2, dirs2)
    ensures Grows(files0, dirs0, files2, dirs2)
  {
  }

  // Without classes there are no objects, and the dimensions do not matter.
  lemma NoData(files: seq<seq<int>>, dirs: seq<Dir>, dimensions: nat, objs: Objects, dimensions': nat)
    requires FilesGood(files, dirs, map[], dimensions, objs)
    ensures FilesGood(files, dirs, map[], dimensions', objs)
  {
    forall f, j: nat | 0 <= f < |files| && j < |dirs[f].entries|
      ensures EntryGood(files[f], dirs[f], j, map[], dimensions', objs)
    {
      assert EntryGood(files[f], dirs[f], j, map[], dimensions, objs);
    }
  }

  // The place of the next entry of a file is not taken.
  lemma NewPlace(files: seq<seq<int>>, dirs: seq<Dir>, objs: Objects, places: map<Key, (nat, nat)>, f: nat)
    requires PlacesGood(files, dirs, objs, places) && f < |dirs|
    ensures forall k | k in objs && k in places :: places[k] != (f, |dirs[f].entries|)
  {
    forall k | k in objs && k in places
      ensures places[k] != (f, |dirs[f].entries|)
    {
      assert PlaceGood(files, dirs, k, places[k]);
    }
  }

  // Everything a new record changes, kept good.
  lemma RecordWritten(files: seq<seq<int>>, dirs: seq<Dir>, classes: Classes, dimensions: nat, objs: Objects,
                      places: map<Key, (nat, nat)>, kind: int, mesh: nat, name: Name, start: int, n: nat,
                      data: seq<int>, rs: seq<Range>)
    requires files != [] && FilesGood(files, dirs, classes, dimensions, objs) && PlacesGood(files, dirs, objs, places)
    requires forall c | c in classes :: ClassGood(c, classes[c], objs)
    requires IsData(kind) && (mesh, name) in classes && n >= 1
    requires |data| == n * WordsEach(kind, classes[(mesh, name)].superclass, dimensions)
    requires !Meets(classes[(mesh, name)].ranges, start, start + n - 1)
    requires IsUnion(classes[(mesh, name)].ranges, start, start + n - 1, rs)
    requires |dirs| == |files| && PlacesUnique(files, dirs, places)
    requires TotalStrings(dirs[|files| - 1].entries) == |dirs[|files| - 1].names|
    ensures
      var cl := classes[(mesh, name)];
      var classes' := classes[(mesh, name) := cl.(ranges := rs)];
      var w := WordsEach(kind, cl.superclass, dimensions);
      var more := NewObjects(kind, mesh, name, start, n, w, data);
      var words := Header(kind, cl.superclass, start, start + n - 1) + data;
      var last := |files| - 1;
      var d := dirs[last];
      var d' := Dir(d.entries + [NewEntry(kind, mesh, n, files[last], words)], d.names + [name], d.commits);
      var files', dirs' := files[last := files[last] + words], dirs[last := d'];
      && FilesGood(files', dirs', classes', dimensions, objs + more)
      && PlacesGood(files', dirs', objs + more, places + PlacesOf(more, (last, |d.entries|)))
      && PlacesUnique(files', dirs', places + PlacesOf(more, (last, |d.entries|)))
      && (forall c | c in classes' :: ClassGood(c, classes'[c], objs + more))
      && Grows(files, dirs, files', dirs') && EntryGood(files'[last], d', |d.entries|, classes', dimensions, objs + more)
      && NameOf(d', |d.entries|) == name && StartAt(files'[last], d'.entries[|d.entries|]) == start
  {
    hide EntryGood, RecordGood, Tidy, ObjectAt, WordsEach, Header, FilesGood, PlacesGood, ClassGood, PlaceGood, IsUnion, Meets;
    var c := (mesh, name);
    FilesCount(files, dirs, classes, dimensions, objs);
    var cl := classes[c];
    var classes' := classes[c := cl.(ranges := rs)];
    var w := WordsEach(kind, cl.superclass, dimensions);
    var more := NewObjects(kind, mesh, name, start, n, w, data);
    var words := Header(kind, cl.superclass, start, start + n - 1) + data;
    var last := |files| - 1;
    var d := dirs[last];
    var e := NewEntry(kind, mesh, n, files[last], words);
    var d' := Dir(d.entries + [e], d.names + [name], d.commits);
    var files', dirs' := files[last := files[last] + words], dirs[last := d'];
    NewIds(c, cl, kind, start, n, more, objs, rs);
    NewEntryGood(files[last], d, kind, mesh, name, start, n, data, classes', dimensions, objs + more);
    RecordAdded(files, dirs, classes, dimensions, objs, classes', objs + more, words, e, name);
    PlacesGrow(files, dirs, files', dirs', classes, dimensions, objs, places);
    NewPlaces(files', dirs', more, (last, |d.entries|), kind, mesh, name, start, n);
    PlacesJoin(files', dirs', objs, places, more, PlacesOf(more, (last, |d.entries|)));
    UniqueAdded(files, dirs, files', dirs', classes, dimensions, objs, places, more, last, |d.entries|);
  }

  // The last file gets an entry of another kind, with what is written for it.
  lemma OtherAdded(files: seq<seq<int>>, dirs: seq<Dir>, classes: Classes, dimensions: nat, objs: Objects,
                   places: map<Key, (nat, nat)>, words: seq<int>, e: Entry, names: seq<Name>)
    requires files != [] && FilesGood(files, dirs, classes, dimensions, objs) && PlacesGood(files, dirs, objs, places)
    requires |dirs| == |files| && PlacesUnique(files, dirs, places) && !IsData(e.kind)
    requires e.length == 4 * |words| && (words != [] ==> e.offset == 4 * |files[|files| - 1]|)
    ensures
      var n := |files| - 1;
      var d := Dir(dirs[n].entries + [e], dirs[n].names + names, dirs[n].commits);
      var files', dirs' := files[n := files[n] + words], dirs[n := d];
      && Grows(files, dirs, files', dirs') && FilesGood(files', dirs', classes, dimensions, objs)
      && PlacesGood(files', dirs', objs, places) && PlacesUnique(files', dirs', places)
  {
    var n := |files| - 1;
    var d := Dir(dirs[n].entries + [e], dirs[n].names + names, dirs[n].commits);
    var files', dirs' := files[n := files[n] + words], dirs[n := d];
    assert Grows(files, dirs, files', dirs');
    hide EntryGood, PlacesGood, InPlace;
    PlacesGrow(files, dirs, files', dirs', classes, dimensions, objs, places);
    OtherTidy(files[n], dirs[n], words, e, names);
    hide Tidy;
    forall f: nat, j: nat | f < |files'| && j < |dirs'[f].entries|
      ensures EntryGood(files'[f], dirs'[f], j, classes, dimensions, objs)
    {
      if f < n || j < |dirs[n].entries| {
        OldEntry(files, dirs, files', dirs', f, j, classes, classes, dimensions, objs, objs);
      } else {
        OtherIsGood(files'[f], dirs'[f], j, classes, dimensions, objs);
      }
    }
    forall f: nat, j: nat, id | f < |files'| && j < |dirs'[f].entries| && IsData(dirs'[f].entries[j].kind)
                              && InRecordOf(files'[f], dirs'[f].entries[j], id)
      ensures InPlace(dirs', places, f, j, id)
    {
      UniqueGrows(files, dirs, files', dirs', classes, dimensions, objs, places, f, j, id);
    }
  }

  lemma OtherTidy(file: seq<int>, d: Dir, words: seq<int>, e: Entry, names: seq<Name>)
    requires Tidy(file, d) && e.length == 4 * |words| && (words != [] ==> e.offset == 4 * |file|)
    ensures Tidy(file + words, Dir(d.entries + [e], d.names + names, d.commits))
  {
  }

  lemma OtherIsGood(file: seq<int>, d: Dir, j: nat, classes: Classes, dimensions: nat, objs: Objects)
    requires j < |d.entries| && !IsData(d.entries[j].kind)
    ensures EntryGood(file, d, j, classes, dimensions, objs)
  {
  }

  lemma PlacesJoin(files: seq<seq<int>>, dirs: seq<Dir>, objs: Objects, places: map<Key, (nat, nat)>, more: Objects,
                   newPlaces: map<Key, (nat, nat)>)
    requires PlacesGood(files, dirs, objs, places) && forall k | k in more :: k !in objs
    requires newPlaces.Keys == more.Keys
    requires forall k | k in more :: IsData(k.kind) && PlaceGood(files, dirs, k, newPlaces[k])
    ensures PlacesGood(files, dirs, objs + more, places + newPlaces)
  {
    hide PlaceGood;
  }

  lemma TotalMore(es: seq<Entry>, e: Entry)
    ensures TotalStrings(es + [e]) == TotalStrings(es) + e.stringQty
  {
    assert (es + [e])[..|es|] == es;
  }

  lemma FilesGrowSelf(files: seq<seq<int>>, dirs: seq<Dir>)
    requires |dirs| == |files|
    ensures Grows(files, dirs, files, dirs)
  {
  }

  function IdsFrom(start: int, n: int): (ids: set<int>)
    ensures forall id :: id in ids <==> start <= id < start + n
    decreases n
  {
    if n <= 0 then {} else {start + n - 1} + IdsFrom(start, n - 1)
  }

  predicate SameEntries(dirs: seq<Dir>, dirs': seq<Dir>) {
    |dirs'| == |dirs| && forall g | 0 <= g < |dirs| :: dirs'[g].entries == dirs[g].entries && dirs'[g].names == dirs[g].names
  }

  predicate InRecordOf(file: seq<int>, e: Entry, id: int) {
    StartAt(file, e) <= id < StartAt(file, e) + e.modifier2
  }

  predicate EntryFor(d: Dir, j: nat, kind: int, c: (int, Name))
    requires j < |d.entries|
  {
    d.entries[j].kind == kind && d.entries[j].modifier1 == c.0 && NameOf(d, j) == c.1
  }

  ghost predicate LoadedIn(files: seq<seq<int>>, dirs: seq<Dir>, i: nat, j: nat, kind: int, c: (int, Name), done: set<int>)
    requires |dirs| == |files|
  {
    forall f: nat, g: nat, id | f < |files| && g < |dirs[f].entries| && (f < i || (f == i && g < j))
                              && EntryFor(dirs[f], g, kind, c) && InRecordOf(files[f], dirs[f].entries[g], id) :: id in done
  }

  lemma StartKept(files: seq<seq<int>>, dirs: seq<Dir>, files': seq<seq<int>>, dirs': seq<Dir>,
                  classes: Classes, dimensions: nat, objs: Objects, f: nat, g: nat)
    requires Grows(files, dirs, files', dirs') && FilesGood(files, dirs, classes, dimensions, objs)
    requires f < |files| && g < |dirs[f].entries| && dirs'[f].entries == dirs[f].entries && dirs'[f].names == dirs[f].names
    ensures NameOf(dirs'[f], g) == NameOf(dirs[f], g)
    ensures IsData(dirs[f].entries[g].kind) ==>
      StartAt(files'[f], dirs[f].entries[g]) == StartAt(files[f], dirs[f].entries[g])
  {
    assert EntryGood(files[f], dirs[f], g, classes, dimensions, objs);
    if IsData(dirs[f].entries[g].kind) {
      var e := dirs[f].entries[g];
      var c := (e.modifier1, NameOf(dirs[f], g));
      SameStart(files[f], files'[f], e, c.1, classes[c].superclass, WordsOf(e, c.1, classes, dimensions), objs);
    }
  }

  lemma FilesCount(files: seq<seq<int>>, dirs: seq<Dir>, classes: Classes, dimensions: nat, objs: Objects)
    requires FilesGood(files, dirs, classes, dimensions, objs)
    ensures |dirs| == |files|
  {
  }

  lemma LastTidy(files: seq<seq<int>>, dirs: seq<Dir>, classes: Classes, dimensions: nat, objs: Objects)
    requires FilesGood(files, dirs, classes, dimensions, objs) && |dirs| == |files| > 0
    ensures Tidy(files[|files| - 1], dirs[|files| - 1])
  {
    hide Tidy, EntryGood;
  }

  // Files that grow without new entries stay good.
  lemma FamilyGrown(files: seq<seq<int>>, dirs: seq<Dir>, files': seq<seq<int>>, dirs': seq<Dir>,
                    classes: Classes, dimensions: nat, objs: Objects, places: map<Key, (nat, nat)>)
    requires FilesGood(files, dirs, classes, dimensions, objs) && PlacesGood(files, dirs, objs, places)
    requires |dirs| == |files| && PlacesUnique(files, dirs, places) && Grows(files, dirs, files', dirs')
    requires forall f | 0 <= f < |files'| :: dirs'[f].entries == if f < |files| then dirs[f].entries else []
    ensures FilesGood(files', dirs', classes, dimensions, objs) && PlacesGood(files', dirs', objs, places)
    ensures PlacesUnique(files', dirs', places)
  {
    PlacesGrow(files, dirs, files', dirs', classes, dimensions, objs, places);
    UniqueSame(files, dirs, files', dirs', classes, dimensions, objs, places);
    hide EntryGood, PlacesGood, PlacesUnique, Tidy;
    forall f | 0 <= f < |files'|
      ensures Tidy(files'[f], dirs'[f])
    {
      if f < |files| {
        TidyExtends(files[f], dirs[f], files'[f], dirs'[f]);
      } else {
        TidyEmpty(files'[f], dirs'[f]);
      }
    }
    forall f, j: nat | 0 <= f < |files'| && j < |dirs'[f].entries|
      ensures EntryGood(files'[f], dirs'[f], j, classes, dimensions, objs)
    {
      OldEntry(files, dirs, files', dirs', f, j, classes, classes, dimensions, objs, objs);
    }
  }

  lemma TidyEmpty(file: seq<int>, d: Dir)
    requires d.entries == []
    ensures Tidy(file, d)
  {
  }

  lemma SameNames(d: Dir, d': Dir, j: nat)
    requires d'.entries == d.entries && d'.names == d.names && j < |d.entries|
    ensures NameOf(d', j) == NameOf(d, j)
  {
  }

  // The words of an element are those the table gives for its superclass, whatever the dimensions.
  lemma WordsAre(superclass: nat, dimensions: nat)
    requires superclass < 16
    ensures CONN_WORDS[superclass] == WordsEach(ELEM_CONNS, superclass, dimensions)
    ensures WordsEach(ELEM_CONNS, superclass, 0) == WordsEach(ELEM_CONNS, superclass, dimensions)
    ensures CONN_WORDS[superclass] == 0 || CONN_WORDS[superclass] >= 3
  {
  }

  // A record of elements: its header, and its objects.
  lemma RecordParts(files: seq<seq<int>>, dirs: seq<Dir>, classes: Classes, dimensions: nat, objs: Objects,
                    f: nat, j: nat, c: (int, Name))
    requires FilesGood(files, dirs, classes, dimensions, objs) && f < |files| && j < |dirs[f].entries|
    requires dirs[f].entries[j].kind == ELEM_CONNS && c == (dirs[f].entries[j].modifier1, NameOf(dirs[f], j))
    requires c in classes && classes[c].superclass < 16
    ensures
      var file, e := files[f], dirs[f].entries[j];
      var o := e.offset / 4;
      var w := WordsEach(ELEM_CONNS, classes[c].superclass, dimensions);
      && 0 <= o && o + 4 <= |file| && file[o] == classes[c].superclass && file[o + 1] == 1
      && file[o + 2] == StartAt(file, e) && file[o + 3] == file[o + 2] + e.modifier2 - 1 && e.modifier2 >= 1
      && Slot(o + 4, w, e.modifier2) <= |file|
      && forall id | file[o + 2] <= id < file[o + 2] + e.modifier2 ::
           Key(ELEM_CONNS, c.0, c.1, id) in objs
           && objs[Key(ELEM_CONNS, c.0, c.1, id)] == ObjectOf(file, o + 4, w, file[o + 2], id)
  {
    var file, e := files[f], dirs[f].entries[j];
    var o := e.offset / 4;
    var w := WordsEach(ELEM_CONNS, classes[c].superclass, dimensions);
    assert EntryGood(file, dirs[f], j, classes, dimensions, objs);
    var start := StartAt(file, e);
    var h := file[o..o + 4];
    assert h == Header(ELEM_CONNS, classes[c].superclass, start, start + e.modifier2 - 1);
    assert h[0] == file[o] && h[1] == file[o + 1] && h[2] == file[o + 2] && h[3] == file[o + 3];
    forall id | start <= id < start + e.modifier2
      ensures Key(ELEM_CONNS, c.0, c.1, id) in objs
           && objs[Key(ELEM_CONNS, c.0, c.1, id)] == ObjectOf(file, o + 4, w, start, id)
    {
      assert Stored(file, e, c.1, w, start, id - start, objs);
    }
  }
}
