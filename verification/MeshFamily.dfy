/**
 A family of files with mesh geometry in it: objects are defined range by range, each range a
 record in the current file and an entry in its directory, and loaded again by going through
 all the entries.
 */
module MeshFamily {
  import opened Wrappers
  import opened MeshRanges
  import opened Directory
  import opened MeshRecords
  import opened MeshLoad
  import opened MeshFiles
  import opened MeshUpdate
  import opened MeshReplay

  datatype GeomStatus =
    | Ok
    | InvalidDimensionality
    | NameConflict
    | InvalidDirEntry
    | NoMesh
    | NotFound
    | SuperclassConflict
    | RangeOverlap
    | InvalidClass

  const UNDEFINED := 0
  const UNSTRUCTURED := 1
  const SCALAR := 0
  const DONT_CARE := 0
  const M_HEX := 9

  predicate IsElement(superclass: int) {
    M_NODE < superclass <= M_HEX
  }

  // The objects in more are all in one record, where none of the others is.
  ghost predicate InNewRecord(objs: Objects, places: map<Key, (nat, nat)>, places': map<Key, (nat, nat)>, more: Objects) {
    exists p :: places' == places + PlacesOf(more, p) && forall k | k in objs && k in places :: places[k] != p
  }

  // Each entry has its names, and no others are there.
  predicate NamesCounted(dirs: seq<Dir>) {
    forall f | 0 <= f < |dirs| :: TotalStrings(dirs[f].entries) == |dirs[f].names|
  }

  // Every object is of a class.
  ghost predicate KeysIn(objs: Objects, classes: Classes) {
    forall k | k in objs :: (k.mesh, k.name) in classes
  }

  lemma CountedMore(dirs: seq<Dir>, n: nat, e: Entry, names: seq<Name>)
    requires NamesCounted(dirs) && n < |dirs| && e.stringQty == |names|
    ensures
      var d := Dir(dirs[n].entries + [e], dirs[n].names + names, dirs[n].commits);
      TotalStrings(dirs[n].entries) == |dirs[n].names| && NamesCounted(dirs[n := d])
  {
    TotalMore(dirs[n].entries, e);
    hide TotalStrings;
  }

  lemma CountedLast(dirs: seq<Dir>)
    requires NamesCounted(dirs) && dirs != []
    ensures TotalStrings(dirs[|dirs| - 1].entries) == |dirs[|dirs| - 1].names|
  {
    hide TotalStrings;
  }

  lemma KeysMore(objs: Objects, classes: Classes, kind: int, c: (int, Name), start: int, n: nat, w: nat, data: seq<int>, cl: Class)
    requires KeysIn(objs, classes) && c in classes
    ensures KeysIn(objs + NewObjects(kind, c.0, c.1, start, n, w, data), classes[c := cl])
  {
    hide NewObjects, ObjectAt;
  }

  lemma EntryIs(kind: int, mesh: int, n: int, file: seq<int>, words: seq<int>)
    ensures NewEntry(kind, mesh, n, file, words) == Entry(kind, mesh, n, 1, 4 * |file|, 4 * |words|)
  {
  }

  lemma InNew(objs: Objects, places: map<Key, (nat, nat)>, more: Objects, p: (nat, nat))
    requires forall k | k in objs && k in places :: places[k] != p
    ensures InNewRecord(objs, places, places + PlacesOf(more, p), more)
  {
  }

  // A string as it is written: with its terminator, and padded to eight bytes.
  function StringWords(s: Name): (words: seq<int>)
    ensures words != []
  {
    FileWords(s + seq(8 - |s| % 8, _ => 0))
  }

  // At least one zero follows the characters, and no more than eight.
  lemma StringPadded(s: Name)
    ensures |StringWords(s)| % 2 == 0 && |s| < 4 * |StringWords(s)| <= |s| + 8
  {
    hide Number;
  }

  // The characters of a C string.
  predicate IsText(s: Name) {
    forall i | 0 <= i < |s| :: 0 < s[i] < 256
  }

  // A string comes back from its words.
  lemma TextBack(s: Name)
    requires IsText(s)
    ensures TextOf(WordBytes(StringWords(s))) == s
  {
    var b := s + seq(8 - |s| % 8, _ => 0);
    BytesOfWords(b);
    TextBefore(s, seq(8 - |s| % 8, _ => 0));
  }

  // The entry of a new record tells of its range.
  lemma RecordTold(m: Meshes, file: seq<int>, d: Dir, j: nat, classes: Classes, dimensions: nat, objs: Objects, name: Name,
                   start: int, rs: seq<Range>)
    requires j < |d.entries| && EntryGood(file, d, j, classes, dimensions, objs) && IsData(d.entries[j].kind)
    requires NameOf(d, j) == name && StartAt(file, d.entries[j]) == start && d.entries[j].modifier2 >= 1
    requires var c := (d.entries[j].modifier1, name);
      && 0 <= c.0 < |m.names| && c in m.classes && Canonical(m.classes[c].ranges)
      && !Meets(m.classes[c].ranges, start, start + d.entries[j].modifier2 - 1)
      && IsUnion(m.classes[c].ranges, start, start + d.entries[j].modifier2 - 1, rs)
    ensures
      var c := (d.entries[j].modifier1, name);
      ReadEntry(m, file, d, j) == Read(m.(classes := m.classes[c := m.classes[c].(ranges := rs)]))
  {
    hide *;
    GoodRead(m, file, d, j, classes, dimensions, objs);
    GeomAdded(m, d.entries[j].modifier1, name, start, start + d.entries[j].modifier2 - 1, rs);
  }

  // What a new record adds to what the files and directories tell.
  lemma RecordSealed(files: seq<seq<int>>, dirs: seq<Dir>, classes: Classes, dimensions: nat, objs: Objects,
                     places: map<Key, (nat, nat)>, cur: Option<nat>, told: Meshes, kind: int, mesh: nat, name: Name,
                     start: int, n: nat, data: seq<int>, rs: seq<Range>)
    requires files != [] && FilesGood(files, dirs, classes, dimensions, objs) && PlacesGood(files, dirs, objs, places)
    requires forall c | c in classes :: ClassGood(c, classes[c], objs)
    requires IsData(kind) && (mesh, name) in classes && n >= 1 && Canonical(classes[(mesh, name)].ranges)
    requires |data| == n * WordsEach(kind, classes[(mesh, name)].superclass, dimensions)
    requires !Meets(classes[(mesh, name)].ranges, start, start + n - 1)
    requires IsUnion(classes[(mesh, name)].ranges, start, start + n - 1, rs)
    requires |dirs| == |files| && PlacesUnique(files, dirs, places)
    requires TotalStrings(dirs[|files| - 1].entries) == |dirs[|files| - 1].names|
    requires Sealed(files, dirs) && Settled(files, dirs, cur) && cur == Some(|files| - 1) && dirs[|files| - 1].commits == 0
    requires told.classes == classes && mesh < |told.names|
    ensures
      var cl := classes[(mesh, name)];
      var words := Header(kind, cl.superclass, start, start + n - 1) + data;
      var last := |files| - 1;
      var d := dirs[last];
      var d' := Dir(d.entries + [NewEntry(kind, mesh, n, files[last], words)], d.names + [name], d.commits);
      var files', dirs' := files[last := files[last] + words], dirs[last := d'];
      && Sealed(files', dirs') && Settled(files', dirs', cur)
      && (Replay(files, dirs) == Read(told) ==>
            Replay(files', dirs') == Read(told.(classes := classes[(mesh, name) := cl.(ranges := rs)])))
  {
    hide WordsEach, Header, FilesGood, PlacesGood, ClassGood, TotalStrings, NewObjects, Meets, IsUnion, Grows, PlacesUnique,
      Sealed, Settled, Replay, Canonical, EntryGood, NameOf, StartAt, ReadEntry;
    RecordWritten(files, dirs, classes, dimensions, objs, places, kind, mesh, name, start, n, data, rs);
    var cl := classes[(mesh, name)];
    var classes' := classes[(mesh, name) := cl.(ranges := rs)];
    var words := Header(kind, cl.superclass, start, start + n - 1) + data;
    var last := |files| - 1;
    var d := dirs[last];
    var d' := Dir(d.entries + [NewEntry(kind, mesh, n, files[last], words)], d.names + [name], d.commits);
    var files', dirs' := files[last := files[last] + words], dirs[last := d'];
    var objs' := objs + NewObjects(kind, mesh, name, start, n, WordsEach(kind, cl.superclass, dimensions), data);
    SealedOpen(files, dirs, files'[last], d');
    SettledAdded(files, dirs, cur, files'[last], d');
    if Replay(files, dirs) == Read(told) {
      ReplayAdded(files, dirs, files', dirs');
      RecordTold(told, files'[last], d', |d.entries|, classes', dimensions, objs', name, start, rs);
    }
  }

  // Where mc_load_nodes puts what it reads: coordinates, or the three arrays of elements.
  datatype Destination =
    | Coords(coords: array<int>)
    | Elements(conns: array<int>, mats: array<int>, parts: array<int>)
  {
    function Arrays(): set<object> {
      if Coords? then {coords} else {conns, mats, parts}
    }

    predicate Apart() {
      Elements? ==> conns != mats && conns != parts && mats != parts
    }
  }

  class Family {
    var files: seq<seq<int>>           // the non-state files, as words
    var dirs: seq<Dir>
    var cur: Option<nat>               // the open file
    var nextFreeByte: int
    var commits: int
    var qtyMeshes: nat
    var meshes: seq<Name>
    var meshType: int
    var dimensions: nat                // 0 as long as there is no mesh
    var classes: Classes
    ghost var objects: Objects         // what has been written for each object, last
    ghost var places: map<Key, (nat, nat)>

    ghost predicate Valid()
      reads this
    {
      && FilesGood(files, dirs, classes, dimensions, objects)
      && PlacesGood(files, dirs, objects, places) && PlacesUnique(files, dirs, places)
      && (forall c | c in classes :: ClassGood(c, classes[c], objects))
      && (cur.Some? ==> cur.value < |files| && nextFreeByte == 4 * |files[cur.value]|)
      && NamesCounted(dirs) && KeysIn(objects, classes)
      && |meshes| == qtyMeshes && (dimensions == 0 ==> qtyMeshes == 0)
      && (forall c | c in classes :: 0 <= c.0 < qtyMeshes && c.1 != [])
      && Sealed(files, dirs) && commits >= 0 && Settled(files, dirs, cur)
    }

    // What the files and directories say about the meshes.
    ghost function Told(): Replayed<Meshes>
      reads this`files, this`dirs
    {
      if |dirs| == |files| then Replay(files, dirs) else Stopped(Outside)
    }

    // It is what the family knows of them: it can be opened again.
    ghost predicate Reopens()
      reads this
    {
      Told() == Read(Meshes(meshType, dimensions, meshes, classes))
    }

    // The last entry of the last file is read after all the others.
    ghost function ReadLast(m: Meshes): Replayed<Meshes>
      reads this`files, this`dirs
    {
      if |dirs| == |files| > 0 && dirs[|files| - 1].entries != [] then
        ReadEntry(m, files[|files| - 1], dirs[|files| - 1], |dirs[|files| - 1].entries| - 1)
      else Stopped(Outside)
    }

    constructor ()
      ensures Valid() && objects == map[] && files == [] && classes == map[] && cur == None
      ensures qtyMeshes == 0 && meshes == [] && dimensions == 0 && Reopens()
    {
      files, dirs, cur, nextFreeByte, commits := [], [], None, 0, 0;
      qtyMeshes, meshes, meshType, dimensions := 0, [], UNDEFINED, 0;
      classes, objects, places := map[], map[], map[];
    }

    // mc_make_umesh. The first mesh decides the dimensions of all.
    method MakeMesh(name: Name, dim: int) returns (status: GeomStatus, id: nat)
      requires Valid()
      modifies this`files, this`dirs, this`cur, this`commits, this`nextFreeByte
      modifies this`qtyMeshes, this`meshes, this`meshType, this`dimensions
      ensures Valid() && Grows(old(files), old(dirs), files, dirs)
      ensures status ==
        if (dim != 2 && dim != 3) || (old(dimensions) != 0 && dim != old(dimensions)) then InvalidDimensionality
        else if name in old(meshes) then NameConflict
        else Ok
      ensures status == Ok ==>
        id == old(qtyMeshes) && qtyMeshes == id + 1 && meshes == old(meshes) + [name] && dimensions == dim
      ensures status != Ok ==>
        && qtyMeshes == old(qtyMeshes) && meshes == old(meshes) && dimensions == old(dimensions)
        && files == old(files) && dirs == old(dirs)
      ensures status == Ok ==>
        LastIs(MILI_PARAM, M_STRING, DONT_CARE, [MeshParam(id)], StringWords(name))
      ensures old(Reopens()) && IsText(name) ==> Reopens()
    {
      hide Valid, Told, ReadLast, Grows, LastIs, StringWords, MeshParam;
      id := 0;
      ValidCount();
      FilesGrowSelf(files, dirs);
      if dim != 2 && dim != 3 {
        return InvalidDimensionality, id;
      }
      if dimensions != 0 && dim != dimensions {
        return InvalidDimensionality, id;
      }
      var taken := HasMesh(name);
      if taken {
        return NameConflict, id;
      }
      ghost var files0, dirs0 := files, dirs;
      DescribeMeshes(dim);
      ghost var files1, dirs1 := files, dirs;
      ghost var told := Meshes(meshType, dimensions, meshes, classes);
      AddParam(MeshParam(qtyMeshes), M_STRING, StringWords(name));
      GrowsOn(files0, dirs0, files1, dirs1, files, dirs);
      if IsText(name) {
        NameTold(told, name);
      }
      id := qtyMeshes;
      EnterMesh(name);
      return Ok, id;
    }

    // The name enters the table of meshes.
    method EnterMesh(name: Name)
      requires Valid() && dimensions > 0
      modifies this`qtyMeshes, this`meshes
      ensures Told() == old(Told())
      ensures Valid() && qtyMeshes == old(qtyMeshes) + 1 && meshes == old(meshes) + [name]
    {
      hide FilesGood, PlacesGood, PlacesUnique, ClassGood, TotalStrings, Sealed, Replay;
      meshes := meshes + [name];
      qtyMeshes := qtyMeshes + 1;
    }

    method HasMesh(name: Name) returns (taken: bool)
      requires |meshes| == qtyMeshes
      ensures taken <==> name in meshes
    {
      for i := 0 to qtyMeshes
        invariant name !in meshes[..i]
      {
        if meshes[i] == name {
          return true;
        }
      }
      assert meshes[..qtyMeshes] == meshes;
      return false;
    }

    // The parameters written once, before the first mesh.
    method DescribeMeshes(dim: nat)
      requires Valid() && dim > 0 && (dimensions == 0 || dimensions == dim)
      modifies this`files, this`dirs, this`cur, this`commits, this`nextFreeByte, this`meshType, this`dimensions
      ensures Valid() && Grows(old(files), old(dirs), files, dirs) && dimensions == dim
      ensures old(Reopens()) ==> Reopens()
    {
      hide FilesGood, PlacesGood, PlacesUnique, ClassGood, TotalStrings, Grows, LastIs, Chars, Sealed, Told, ReadLast;
      FilesCount(files, dirs, classes, dimensions, objects);
      FilesGrowSelf(files, dirs);
      if meshType == UNDEFINED {
        meshType := UNSTRUCTURED;
        ghost var told := Meshes(0, dimensions, meshes, classes);
        AddParam(Chars("mesh type"), M_INT, [meshType]);
        NumberTold(told, Chars("mesh type"), meshType);
      }
      if dimensions == 0 {
        ghost var files1, dirs1 := files, dirs;
        assert classes == map[];
        NoData(files, dirs, dimensions, objects, dim);
        dimensions := dim;
        ghost var told := Meshes(meshType, 0, meshes, classes);
        AddParam(Chars("mesh dimensions"), M_INT, [dimensions]);
        NumberTold(told, Chars("mesh dimensions"), dimensions);
        NamesDiffer();
        GrowsOn(old(files), old(dirs), files1, dirs1, files, dirs);
      }
    }

    // The last entry of the last file, its names, and what was written for it.
    ghost predicate LastIs(kind: int, modifier1: int, modifier2: int, names: seq<Name>, words: seq<int>)
      reads this`files, this`dirs
    {
      && files != [] && |dirs| == |files|
      && var d, file := dirs[|files| - 1], files[|files| - 1];
         && |d.entries| >= 1 && |d.names| >= |names| && |file| >= |words|
         && d.names[|d.names| - |names|..] == names && file[|file| - |words|..] == words
         && var e := d.entries[|d.entries| - 1];
            && e.kind == kind && e.modifier1 == modifier1 && e.modifier2 == modifier2 && e.stringQty == |names|
            && e.length == 4 * |words| && (words != [] ==> e.offset == 4 * (|file| - |words|))
    }

    // add_dir_entry, for anything but nodes and elements, and the write that follows.
    method AddOther(kind: int, modifier1: int, modifier2: int, names: seq<Name>, words: seq<int>)
      requires Valid() && files != [] && cur == Some(|files| - 1) && !IsData(kind)
      requires |dirs| == |files| && dirs[|files| - 1].commits == 0
      modifies this`files, this`dirs, this`nextFreeByte
      ensures Valid() && Grows(old(files), old(dirs), files, dirs) && |files| == |old(files)|
      ensures LastIs(kind, modifier1, modifier2, names, words)
      ensures old(Told()).Read? ==> Told() == ReadLast(old(Told()).value)
    {
      hide FilesGood, PlacesGood, PlacesUnique, ClassGood, TotalStrings, Grows, Sealed, Settled, Replay, ReadEntry;
      ghost var files0, dirs0 := files, dirs;
      FilesCount(files, dirs, classes, dimensions, objects);
      var last := |files| - 1;
      var d := dirs[last];
      var offset := if words == [] then DONT_CARE else nextFreeByte;
      var e := Entry(kind, modifier1, modifier2, |names|, offset, 4 * |words|);
      OtherAdded(files, dirs, classes, dimensions, objects, places, words, e, names);
      TotalMore(d.entries, e);
      dirs := dirs[last := Dir(d.entries + [e], d.names + names, d.commits)];
      files := files[last := files[last] + words];
      nextFreeByte := nextFreeByte + 4 * |words|;
      SealedOpen(files0, dirs0, files[last], dirs[last]);
      SettledAdded(files0, dirs0, cur, files[last], dirs[last]);
      if Replay(files0, dirs0).Read? {
        ReplayAdded(files0, dirs0, files, dirs);
      }
    }

    // write_scalar and write_string, for a parameter that is not there yet.
    method AddParam(name: Name, dataType: int, words: seq<int>)
      requires Valid()
      modifies this`files, this`dirs, this`cur, this`commits, this`nextFreeByte
      ensures Valid() && Grows(old(files), old(dirs), files, dirs)
      ensures LastIs(MILI_PARAM, dataType, if dataType == M_STRING then DONT_CARE else SCALAR, [name], words)
      ensures old(Told()).Read? ==> Told() == ReadLast(old(Told()).value)
    {
      hide Valid, Grows, LastIs, Told, ReadLast;
      PrepForNewData();
      ghost var files1, dirs1 := files, dirs;
      AddOther(MILI_PARAM, dataType, if dataType == M_STRING then DONT_CARE else SCALAR, [name], words);
      GrowsOn(old(files), old(dirs), files1, dirs1, files, dirs);
    }

    // mc_def_class: a class with nothing defined, if it is new, and an entry for it in any case.
    method DefClass(mesh: nat, superclass: nat, name: Name, longName: Name) returns (status: GeomStatus)
      requires Valid() && superclass < 16
      modifies this`files, this`dirs, this`cur, this`commits, this`nextFreeByte, this`classes
      ensures Valid() && Grows(old(files), old(dirs), files, dirs)
      ensures status ==
        if mesh >= qtyMeshes then NoMesh else if name == [] || longName == [] then InvalidDirEntry else Ok
      ensures classes ==
        if mesh >= qtyMeshes || name == [] || (mesh, name) in old(classes) then old(classes)
        else old(classes)[(mesh, name) := Class(superclass, [])]
      ensures status == Ok ==> LastIs(CLASS_DEF, mesh, superclass, [name, longName], [])
      ensures old(Reopens()) ==> (Reopens() <==> status == Ok || classes == old(classes))
      ensures status == InvalidDirEntry && old(cur).None? ==> dirs == old(dirs) + [Dir([], [], 0)]
    {
      hide Valid, Told, ReadLast, Grows, LastIs;
      ghost var told := Meshes(meshType, dimensions, meshes, classes);
      ValidCount();
      FilesGrowSelf(files, dirs);
      if mesh >= qtyMeshes {
        return NoMesh;
      }
      if name != [] && (mesh, name) !in classes {
        NewClass((mesh, name), superclass);
      }
      PrepForNewData();
      if name == [] || longName == [] {
        return InvalidDirEntry;
      }
      ghost var files1, dirs1 := files, dirs;
      AddOther(CLASS_DEF, mesh, superclass, [name, longName], []);
      GrowsOn(old(files), old(dirs), files1, dirs1, files, dirs);
      ClassTold(told, mesh, superclass, name, longName);
      return Ok;
    }

    // The class enters the table of its mesh.
    method NewClass(c: (int, Name), superclass: nat)
      requires Valid() && superclass < 16 && 0 <= c.0 < qtyMeshes && c.1 != [] && c !in classes
      modifies this`classes
      ensures Valid() && classes == old(classes)[c := Class(superclass, [])] && Told() == old(Told())
    {
      hide Sealed, Replay;
      ghost var before := classes;
      classes := classes[c := Class(superclass, [])];
      forall f, j: nat | 0 <= f < |files| && j < |dirs[f].entries|
        ensures EntryGood(files[f], dirs[f], j, classes, dimensions, objects)
      {
        OldEntry(files, dirs, files, dirs, f, j, before, classes, dimensions, objects, objects);
      }
      forall id
        ensures !Defined(objects, c, id)
      {
      }
    }

    // The open file is closed; the last one gets its directory first, if it has none yet.
    method CloseFile()
      requires Valid()
      modifies this`files, this`dirs, this`cur, this`commits
      ensures Valid() && cur == None && Grows(old(files), old(dirs), files, dirs) && |files| == |old(files)|
      ensures SameEntries(old(dirs), dirs) && |dirs| == |files|
      ensures old(Told()).Read? ==> Told() == old(Told())
    {
      hide FilesGood, PlacesGood, PlacesUnique, ClassGood, TotalStrings, Sealed, Replay;
      FilesCount(files, dirs, classes, dimensions, objects);
      FilesGrowSelf(files, dirs);
      if cur.Some? && cur.value == |files| - 1 && dirs[cur.value].commits == 0 && dirs[cur.value].entries != [] {
        CommitLast();
      }
      cur := None;
    }

    // commit_dir: the directory is written at the end of the last file.
    method CommitLast()
      requires Valid() && files != [] && |dirs| == |files| && dirs[|files| - 1].entries != []
      modifies this`files, this`dirs, this`cur, this`commits
      ensures Valid() && cur == None && Grows(old(files), old(dirs), files, dirs) && |files| == |old(files)|
      ensures SameEntries(old(dirs), dirs) && |dirs| == |files| && dirs[|files| - 1].commits != 0
      ensures old(Told()).Read? ==> Told() == old(Told())
    {
      hide FilesGood, PlacesGood, PlacesUnique, ClassGood, TotalStrings, Sealed, ReplayTo, FileWords, DirectoryBytes, Tidy;
      FilesCount(files, dirs, classes, dimensions, objects);
      ghost var files0, dirs0 := files, dirs;
      var n := |files| - 1;
      LastTidy(files, dirs, classes, dimensions, objects);
      cur := None;
      commits := commits + 1;
      files := files[n := files[n] + FileWords(DirectoryBytes(dirs[n].entries, dirs[n].names, commits))];
      dirs := dirs[n := dirs[n].(commits := commits)];
      FamilyGrown(files0, dirs0, files, dirs, classes, dimensions, objects, places);
      SealedLast(files0, dirs0, commits);
      if Replay(files0, dirs0).Read? {
        ReplayKept(files0, dirs0, files, dirs, |files|);
      }
    }

    // prep_for_new_data: the last file is open and has no directory yet, or a new one is begun.
    method PrepForNewData()
      requires Valid()
      modifies this`files, this`dirs, this`cur, this`commits, this`nextFreeByte
      ensures Valid() && Grows(old(files), old(dirs), files, dirs)
      ensures |dirs| == |files| > 0 && cur == Some(|files| - 1) && dirs[|files| - 1].commits == 0
      ensures old(cur).None? ==> dirs == old(dirs) + [Dir([], [], 0)]
      ensures old(Told()).Read? ==> Told() == old(Told())
    {
      hide FilesGood, PlacesGood, PlacesUnique, ClassGood, TotalStrings, Sealed, Replay;
      FilesCount(files, dirs, classes, dimensions, objects);
      FilesGrowSelf(files, dirs);
      if cur.Some? {
        if cur.value == |files| - 1 && dirs[cur.value].commits == 0 {
          return;
        }
        CloseFile();
      }
      NewFile();
    }

    method NewFile()
      requires Valid() && cur == None
      modifies this`files, this`dirs, this`cur, this`nextFreeByte
      ensures Valid() && files == old(files) + [[]] && dirs == old(dirs) + [Dir([], [], 0)]
      ensures cur == Some(|files| - 1)
      ensures old(Told()).Read? ==> Told() == old(Told())
    {
      hide FilesGood, PlacesGood, PlacesUnique, ClassGood, Sealed, ReplayTo;
      FilesCount(files, dirs, classes, dimensions, objects);
      ghost var files0, dirs0 := files, dirs;
      files := files + [[]];
      dirs := dirs + [Dir([], [], 0)];
      cur := Some(|files| - 1);
      nextFreeByte := 0;
      FamilyGrown(files0, dirs0, files, dirs, classes, dimensions, objects, places);
      SealedNew(files0, dirs0);
      if Replay(files0, dirs0).Read? {
        ReplayKept(files0, dirs0, files, dirs, |files|);
      }
    }

    // The record of a new range, in the last file, and its entry.
    method WriteRecord(kind: int, mesh: nat, name: Name, start: int, n: nat, data: seq<int>, rs: seq<Range>)
      requires Valid() && files != [] && cur == Some(|files| - 1) && IsData(kind)
      requires (mesh, name) in classes && n >= 1
      requires |data| == n * WordsEach(kind, classes[(mesh, name)].superclass, dimensions)
      requires !Meets(classes[(mesh, name)].ranges, start, start + n - 1)
      requires IsUnion(classes[(mesh, name)].ranges, start, start + n - 1, rs)
      requires |dirs| == |files| && dirs[|files| - 1].commits == 0
      modifies this`files, this`dirs, this`classes, this`nextFreeByte, this`objects, this`places
      ensures old(Reopens()) ==> Reopens()
      ensures Valid() && classes == old(classes)[(mesh, name) := old(classes)[(mesh, name)].(ranges := rs)]
      ensures objects == old(objects) +
        NewObjects(kind, mesh, name, start, n, WordsEach(kind, old(classes)[(mesh, name)].superclass, dimensions), data)
      ensures InNewRecord(old(objects), old(places), places,
        NewObjects(kind, mesh, name, start, n, WordsEach(kind, old(classes)[(mesh, name)].superclass, dimensions), data))
    {
      hide *;
      RangesOf((mesh, name));
      Parts();
      CountedLast(dirs);
      ghost var told := Meshes(meshType, dimensions, meshes, classes);
      RecordWritten(files, dirs, classes, dimensions, objects, places, kind, mesh, name, start, n, data, rs);
      RecordSealed(files, dirs, classes, dimensions, objects, places, cur, told, kind, mesh, name, start, n, data, rs);
      var c := (mesh, name);
      var cl := classes[c];
      var last := |files| - 1;
      var words := Header(kind, cl.superclass, start, start + n - 1) + data;
      var e := Entry(kind, mesh, n, 1, nextFreeByte, 4 * |words|);
      ghost var w := WordsEach(kind, cl.superclass, dimensions);
      ghost var more := NewObjects(kind, mesh, name, start, n, w, data);
      ghost var place := (last, |dirs[last].entries|);
      NewPlace(files, dirs, objects, places, last);
      InNew(objects, places, more, place);
      EntryIs(kind, mesh, n, files[last], words);
      CountedMore(dirs, last, e, [name]);
      KeysMore(objects, classes, kind, c, start, n, w, data, cl.(ranges := rs));
      Enter(files[last := files[last] + words],
            dirs[last := Dir(dirs[last].entries + [e], dirs[last].names + [name], dirs[last].commits)],
            classes[c := cl.(ranges := rs)], nextFreeByte + 4 * |words|, objects + more, places + PlacesOf(more, place));
    }

    // What a definition leaves.
    method Enter(files': seq<seq<int>>, dirs': seq<Dir>, classes': Classes, nextFreeByte': int,
                 ghost objects': Objects, ghost places': map<Key, (nat, nat)>)
      requires Valid() && cur.Some? && cur.value < |files'| && nextFreeByte' == 4 * |files'[cur.value]|
      requires FilesGood(files', dirs', classes', dimensions, objects')
      requires |dirs'| == |files'| && PlacesGood(files', dirs', objects', places') && PlacesUnique(files', dirs', places')
      requires forall c | c in classes' :: ClassGood(c, classes'[c], objects')
      requires NamesCounted(dirs') && KeysIn(objects', classes') && classes'.Keys == classes.Keys
      requires Sealed(files', dirs') && Settled(files', dirs', cur)
      modifies this`files, this`dirs, this`classes, this`nextFreeByte, this`objects, this`places
      ensures Valid() && files == files' && dirs == dirs' && classes == classes' && objects == objects' && places == places'
      ensures Replay(files', dirs') == Read(Meshes(meshType, dimensions, meshes, classes')) ==> Reopens()
    {
      hide FilesGood, PlacesGood, PlacesUnique, ClassGood, NamesCounted, KeysIn, Sealed, Settled, Replay;
      forall c | c in classes'
        ensures 0 <= c.0 < qtyMeshes && c.1 != []
      {
        assert c in classes'.Keys;
      }
      files, dirs, classes, nextFreeByte, objects, places := files', dirs', classes', nextFreeByte', objects', places';
    }

    // What a valid family is, part by part.
    lemma Parts()
      requires Valid()
      ensures FilesGood(files, dirs, classes, dimensions, objects) && |dirs| == |files| && PlacesGood(files, dirs, objects, places)
      ensures PlacesUnique(files, dirs, places) && forall c | c in classes :: ClassGood(c, classes[c], objects)
      ensures NamesCounted(dirs) && KeysIn(objects, classes) && Sealed(files, dirs) && Settled(files, dirs, cur)
      ensures forall c | c in classes :: 0 <= c.0 < |meshes|
      ensures cur.Some? ==> cur.value < |files| && nextFreeByte == 4 * |files[cur.value]|
      ensures Reopens() ==> Replay(files, dirs) == Read(Meshes(meshType, dimensions, meshes, classes))
    {
      hide FilesGood, PlacesGood, PlacesUnique, ClassGood, NamesCounted, KeysIn, Sealed, Settled, Replay;
      FilesCount(files, dirs, classes, dimensions, objects);
    }

    lemma RangesOf(c: (int, Name))
      requires Valid() && c in classes
      ensures Canonical(classes[c].ranges)
      ensures forall id :: Has(classes[c].ranges, id) <==> Defined(objects, c, id)
    {
      hide FilesGood, PlacesGood, PlacesUnique, Has, Defined;
      assert ClassGood(c, classes[c], objects);
    }

    // add_geom, prep_for_new_data and the write, for a range that may be new.
    method Define(kind: int, mesh: nat, name: Name, start: int, stop: int, data: seq<int>) returns (ok: bool)
      requires Valid() && IsData(kind) && start <= stop && (mesh, name) in classes
      requires |data| == (stop - start + 1) * WordsEach(kind, classes[(mesh, name)].superclass, dimensions)
      modifies this`files, this`dirs, this`classes, this`nextFreeByte, this`objects, this`places, this`cur, this`commits
      ensures Valid() && classes.Keys == old(classes.Keys) && (old(Reopens()) ==> Reopens())
      ensures ok <==> forall id | start <= id <= stop :: !Defined(old(objects), (mesh, name), id)
      ensures ok ==> objects == old(objects) + NewObjects(kind, mesh, name, start, stop - start + 1,
        WordsEach(kind, old(classes)[(mesh, name)].superclass, dimensions), data)
      ensures ok ==> InNewRecord(old(objects), old(places), places, NewObjects(kind, mesh, name, start, stop - start + 1,
        WordsEach(kind, old(classes)[(mesh, name)].superclass, dimensions), data))
      ensures classes[(mesh, name)].superclass == old(classes)[(mesh, name)].superclass
      ensures !ok ==>
        && objects == old(objects) && files == old(files) && dirs == old(dirs) && cur == old(cur)
        && places == old(places) && classes == old(classes) && nextFreeByte == old(nextFreeByte)
    {
      hide Valid, NewObjects, WordsEach, Insert, InNewRecord, Defined, Has, IsUnion, Told;
      var cl := classes[(mesh, name)];
      RangesOf((mesh, name));
      var (status, rs) := Insert(cl.ranges, start, stop);
      InsertIs(cl.ranges, start, stop);
      if status.Overlapped? {
        return false;
      }
      forall id | start <= id <= stop
        ensures !Defined(objects, (mesh, name), id)
      {
        assert !Has(cl.ranges, id);
      }
      PrepForNewData();
      WriteRecord(kind, mesh, name, start, stop - start + 1, data, rs);
      return true;
    }

    // mc_def_conn_seq. The data hold conn_words words for each element.
    method DefConnSeq(mesh: nat, name: Name, start: int, stop: int, data: seq<int>) returns (status: GeomStatus)
      requires Valid() && start <= stop
      requires (mesh, name) in classes ==>
        |data| == (stop - start + 1) * WordsEach(ELEM_CONNS, classes[(mesh, name)].superclass, dimensions)
      modifies this`files, this`dirs, this`classes, this`nextFreeByte, this`objects, this`places, this`cur, this`commits
      ensures Valid() && classes.Keys == old(classes.Keys) && (old(Reopens()) ==> Reopens())
      ensures status ==
        if mesh >= qtyMeshes then NoMesh
        else if (mesh, name) !in old(classes) then NotFound
        else if exists id | start <= id <= stop :: Defined(old(objects), (mesh, name), id) then RangeOverlap
        else Ok
      ensures objects == if status == Ok then old(objects) +
        NewObjects(ELEM_CONNS, mesh, name, start, stop - start + 1,
          WordsEach(ELEM_CONNS, old(classes)[(mesh, name)].superclass, dimensions), data) else old(objects)
      ensures (mesh, name) in classes ==> classes[(mesh, name)].superclass == old(classes)[(mesh, name)].superclass
    {
      hide Valid, Told, NewObjects, WordsEach, Defined, InNewRecord;
      if mesh >= qtyMeshes {
        return NoMesh;
      }
      if (mesh, name) !in classes {
        return NotFound;
      }
      var ok := Define(ELEM_CONNS, mesh, name, start, stop, data);
      return if ok then Ok else RangeOverlap;
    }

    // non_state_file_open, for a file that exists: the one open before is closed.
    method OpenFile(f: nat)
      requires Valid() && f < |files|
      modifies this`files, this`dirs, this`cur, this`commits, this`nextFreeByte
      ensures Valid() && cur == Some(f) && Grows(old(files), old(dirs), files, dirs) && |files| == |old(files)|
      ensures SameEntries(old(dirs), dirs) && |dirs| == |files|
      ensures old(Told()).Read? ==> Told() == old(Told())
    {
      hide FilesGood, PlacesGood, PlacesUnique, ClassGood, TotalStrings, Sealed, Replay;
      FilesCount(files, dirs, classes, dimensions, objects);
      FilesGrowSelf(files, dirs);
      if cur != Some(f) {
        CloseFile();
        cur := Some(f);
        nextFreeByte := 4 * |files[f]|;
      }
    }

    // The words of an element of a class, and how many of them are its nodes.
    function ConnWords(c: (int, Name)): nat
      requires c in classes
      reads this`classes
    {
      WordsEach(ELEM_CONNS, classes[c].superclass, 0)
    }

    function ConnQty(c: (int, Name)): (q: nat)
      requires c in classes && ConnWords(c) > 0
      reads this`classes
    {
      ConnWords(c) - 2
    }

    // The ids of the record that entry j of file f leads to.
    predicate InRecord(f: nat, j: nat, id: int)
      requires f < |files| == |dirs| && j < |dirs[f].entries|
      reads this`files, this`dirs
    {
      InRecordOf(files[f], dirs[f].entries[j], id)
    }

    lemma FilesOf(c: (int, Name))
      requires Valid() && c in classes
      ensures FilesGood(files, dirs, classes, dimensions, objects) && |dirs| == |files| && PlacesUnique(files, dirs, places)
      ensures classes[c].superclass < 16
    {
      hide FilesGood, PlacesGood, PlacesUnique;
      FilesCount(files, dirs, classes, dimensions, objects);
    }

    // Entry j of file f is for objects of the class.
    predicate IsFor(f: nat, j: nat, kind: int, c: (int, Name))
      requires f < |dirs| && j < |dirs[f].entries|
      reads this`dirs
    {
      EntryFor(dirs[f], j, kind, c)
    }

    // The rows of the ids in done are loaded, and the others are as they were.
    ghost predicate Loaded(done: set<int>, c: (int, Name), a: seq<int>, b: seq<int>, p: seq<int>,
                           a': seq<int>, b': seq<int>, p': seq<int>)
      requires c in classes && ConnWords(c) > 0
      reads this`classes, this`objects
    {
      && |a'| == |a| && |b'| == |b| && |p'| == |p|
      && (forall id | id in done ::
            Key(ELEM_CONNS, c.0, c.1, id) in objects
            && RowIs(a', b', p', ConnQty(c), id, objects[Key(ELEM_CONNS, c.0, c.1, id)]))
      && (forall x | x !in done :: RowSame(a, b, p, a', b', p', ConnQty(c), x))
    }

    // Loading twice.
    lemma LoadedOn(done: set<int>, more: set<int>, c: (int, Name), a: seq<int>, b: seq<int>, p: seq<int>,
                   a1: seq<int>, b1: seq<int>, p1: seq<int>, a2: seq<int>, b2: seq<int>, p2: seq<int>)
      requires c in classes && ConnWords(c) > 0
      requires Loaded(done, c, a, b, p, a1, b1, p1) && Loaded(more, c, a1, b1, p1, a2, b2, p2)
      ensures Loaded(done + more, c, a, b, p, a2, b2, p2)
    {
      hide RowIs, RowSame, ConnWords, ConnQty;
      forall id | id in done && id !in more
        ensures RowIs(a2, b2, p2, ConnQty(c), id, objects[Key(ELEM_CONNS, c.0, c.1, id)])
      {
        RowStaysSame(a1, b1, p1, a2, b2, p2, ConnQty(c), id, objects[Key(ELEM_CONNS, c.0, c.1, id)]);
      }
      forall x | x !in done + more
        ensures RowSame(a, b, p, a2, b2, p2, ConnQty(c), x)
      {
        RowSameTwice(a, b, p, a1, b1, p1, a2, b2, p2, ConnQty(c), x);
      }
    }

    // The ids of the record of entry j of file f.
    function RecordIds(f: nat, j: nat): (ids: set<int>)
      requires f < |files| == |dirs| && j < |dirs[f].entries|
      ensures forall id :: id in ids <==> InRecord(f, j, id)
      reads this`files, this`dirs
    {
      IdsFrom(StartAt(files[f], dirs[f].entries[j]), dirs[f].entries[j].modifier2)
    }

    // There is room for every element of the class.
    ghost predicate RowsFit(c: (int, Name), conns: nat, mats: nat, parts: nat)
      requires c in classes && ConnWords(c) > 0
      reads this`classes, this`objects
    {
      forall id | Key(ELEM_CONNS, c.0, c.1, id) in objects :: HasRow(conns, mats, parts, ConnQty(c), id)
    }

    // load_conn_def: the record that entry j of file f leads to, in the rows of its ids.
    method LoadConnDef(f: nat, j: nat, conns: array<int>, mats: array<int>, parts: array<int>, ghost c: (int, Name))
      requires Valid() && f < |files| == |dirs| && j < |dirs[f].entries| && IsFor(f, j, ELEM_CONNS, c)
      requires conns != mats && conns != parts && mats != parts
      requires c in classes && ConnWords(c) > 0 && RowsFit(c, conns.Length, mats.Length, parts.Length)
      modifies this`files, this`dirs, this`cur, this`commits, this`nextFreeByte, conns, mats, parts
      ensures Valid() && Grows(old(files), old(dirs), files, dirs) && |files| == |old(files)|
      ensures SameEntries(old(dirs), dirs) && |dirs| == |files|
      ensures old(Told()).Read? ==> Told() == old(Told())
      ensures Loaded(RecordIds(f, j), c, old(conns[..]), old(mats[..]), old(parts[..]), conns[..], mats[..], parts[..])
    {
      hide Valid, Told, RowIs, RowSame, HasRow, FilesGood, Grows, NameOf, WordsEach, StartAt, ObjectOf, Slot, IdsFrom;
      FilesOf(c);
      ghost var d := dirs[f];
      OpenFile(f);
      SameNames(d, dirs[f], j);
      FilesOf(c);
      var file, e := files[f], dirs[f].entries[j];
      RecordParts(files, dirs, classes, dimensions, objects, f, j, c);
      var o := e.offset / 4;
      var superclass, blkQty := file[o], file[o + 1];
      WordsAre(superclass, dimensions);
      var wordQty := CONN_WORDS[superclass];
      var connQty := wordQty - 2;
      var pSrc := o + 2 + 2 * blkQty;
      var start, stop := file[o + 2], file[o + 3];
      forall id | start <= id <= stop
        ensures HasRow(conns.Length, mats.Length, parts.Length, connQty, id)
      {
        assert Key(ELEM_CONNS, c.0, c.1, id) in objects;
      }
      assert conns[..] == old(conns[..]) && mats[..] == old(mats[..]) && parts[..] == old(parts[..]);
      LoadBlock(file, pSrc, connQty, wordQty, start, stop - start + 1, conns, mats, parts);
      forall id | id in RecordIds(f, j)
        ensures Key(ELEM_CONNS, c.0, c.1, id) in objects
        ensures RowIs(conns[..], mats[..], parts[..], ConnQty(c), id, objects[Key(ELEM_CONNS, c.0, c.1, id)])
      {
        assert objects[Key(ELEM_CONNS, c.0, c.1, id)] == ObjectOf(file, pSrc, wordQty, start, id);
      }
      forall x | x !in RecordIds(f, j)
        ensures RowSame(old(conns[..]), old(mats[..]), old(parts[..]), conns[..], mats[..], parts[..], ConnQty(c), x)
      {
        assert !(start <= x < start + (stop - start + 1));
      }
    }

    // One entry: loaded if it is for the class.
    method LoadEntry(f: nat, j: nat, conns: array<int>, mats: array<int>, parts: array<int>, c: (int, Name),
                     ghost done: set<int>, ghost a: seq<int>, ghost b: seq<int>, ghost p: seq<int>)
      returns (ghost done': set<int>)
      requires Valid() && f < |files| == |dirs| && j < |dirs[f].entries|
      requires conns != mats && conns != parts && mats != parts
      requires c in classes && ConnWords(c) > 0 && RowsFit(c, conns.Length, mats.Length, parts.Length)
      requires Loaded(done, c, a, b, p, conns[..], mats[..], parts[..])
      modifies this`files, this`dirs, this`cur, this`commits, this`nextFreeByte, conns, mats, parts
      ensures Valid() && Grows(old(files), old(dirs), files, dirs) && |files| == |old(files)|
      ensures SameEntries(old(dirs), dirs) && |dirs| == |files|
      ensures old(Told()).Read? ==> Told() == old(Told())
      ensures Loaded(done', c, a, b, p, conns[..], mats[..], parts[..]) && done <= done'
      ensures IsFor(f, j, ELEM_CONNS, c) ==> RecordIds(f, j) <= done'
    {
      hide Valid, Loaded, RowsFit, ConnWords, Grows, Told, NameOf, IdsFrom;
      done' := done;
      if !IsFor(f, j, ELEM_CONNS, c) {
        FilesGrowSelf(files, dirs);
        return;
      }
      ghost var a1, b1, p1, d := conns[..], mats[..], parts[..], dirs[f];
      LoadConnDef(f, j, conns, mats, parts, c);
      SameNames(d, dirs[f], j);
      ghost var more := RecordIds(f, j);
      done' := done + more;
      LoadedOn(done, more, c, a, b, p, a1, b1, p1, conns[..], mats[..], parts[..]);
    }

    // The records before entry j of file i that are for the class have been loaded.
    ghost predicate LoadedBefore(i: nat, j: nat, kind: int, c: (int, Name), done: set<int>)
      requires |dirs| == |files|
      reads this`files, this`dirs
    {
      LoadedIn(files, dirs, i, j, kind, c, done)
    }

    // The elements of a class are in their rows, and the other rows are as they were.
    ghost predicate AllRows(c: (int, Name), a: seq<int>, b: seq<int>, p: seq<int>, a': seq<int>, b': seq<int>, p': seq<int>)
      requires c in classes && ConnWords(c) > 0
      reads this`classes, this`objects
    {
      && (forall id | Key(ELEM_CONNS, c.0, c.1, id) in objects ::
            RowIs(a', b', p', ConnQty(c), id, objects[Key(ELEM_CONNS, c.0, c.1, id)]))
      && (forall x | Key(ELEM_CONNS, c.0, c.1, x) !in objects :: RowSame(a, b, p, a', b', p', ConnQty(c), x))
    }

    // The loops of mc_load_conns, and those of mc_load_nodes for elements.
    method LoadElements(c: (int, Name), conns: array<int>, mats: array<int>, parts: array<int>)
      requires Valid() && conns != mats && conns != parts && mats != parts
      requires c in classes && ConnWords(c) > 0 && RowsFit(c, conns.Length, mats.Length, parts.Length)
      modifies this`files, this`dirs, this`cur, this`commits, this`nextFreeByte, conns, mats, parts
      ensures Valid() && AllRows(c, old(conns[..]), old(mats[..]), old(parts[..]), conns[..], mats[..], parts[..])
      ensures old(Told()).Read? ==> Told() == old(Told())
    {
      hide RowIs, RowSame, HasRow, FilesGood, PlacesGood, PlacesUnique, ClassGood, Grows, InRecord, NameOf, WordsEach,
        ConnQty, Sealed, Told;
      ghost var a, b, p := conns[..], mats[..], parts[..];
      ghost var done: set<int> := {};
      RowSameSelf(a, b, p, ConnQty(c));
      FilesCount(files, dirs, classes, dimensions, objects);
      var i := 0;
      while i < |files|
        invariant Valid() && |dirs| == |files| == |old(files)| && i <= |files|
        invariant Loaded(done, c, a, b, p, conns[..], mats[..], parts[..])
        invariant old(Told()).Read? ==> Told() == old(Told())
        invariant LoadedBefore(i, 0, ELEM_CONNS, c, done)
      {
        var entQty := |dirs[i].entries|;
        var j := 0;
        while j < entQty
          invariant Valid() && |dirs| == |files| == |old(files)| && i < |files|
          invariant |dirs[i].entries| == entQty && j <= entQty
          invariant Loaded(done, c, a, b, p, conns[..], mats[..], parts[..])
          invariant old(Told()).Read? ==> Told() == old(Told())
          invariant LoadedBefore(i, j, ELEM_CONNS, c, done)
        {
          ghost var files1, dirs1, done1 := files, dirs, done;
          done := LoadEntry(i, j, conns, mats, parts, c, done, a, b, p);
          FilesCount(files, dirs, classes, dimensions, objects);
          StillLoaded(files1, dirs1, i, j, ELEM_CONNS, c, done1, done);
          j := j + 1;
        }
        i := i + 1;
      }
      AllLoaded(ELEM_CONNS, c, done);
    }

    // mc_load_conns
    method LoadConns(mesh: int, name: Name, conns: array<int>, mats: array<int>, parts: array<int>)
      returns (status: GeomStatus)
      requires Valid() && conns != mats && conns != parts && mats != parts
      requires (mesh, name) in classes && ConnWords((mesh, name)) > 0 ==>
        RowsFit((mesh, name), conns.Length, mats.Length, parts.Length)
      modifies this`files, this`dirs, this`cur, this`commits, this`nextFreeByte, conns, mats, parts
      ensures Valid() && (old(Reopens()) ==> Reopens())
      ensures status ==
        if mesh < 0 || mesh >= qtyMeshes then NoMesh
        else if (mesh, name) !in classes then NotFound
        else if !(M_TRUSS <= classes[(mesh, name)].superclass <= M_INODE) then InvalidClass
        else Ok
      ensures status == Ok && ConnWords((mesh, name)) > 0 ==>
        AllRows((mesh, name), old(conns[..]), old(mats[..]), old(parts[..]), conns[..], mats[..], parts[..])
      ensures status != Ok || ConnWords((mesh, name)) == 0 ==>
        conns[..] == old(conns[..]) && mats[..] == old(mats[..]) && parts[..] == old(parts[..])
    {
      hide RowsFit, AllRows, Valid, WordsEach, Told;
      if mesh < 0 || mesh >= qtyMeshes {
        return NoMesh;
      }
      if (mesh, name) !in classes {
        return NotFound;
      }
      if !(M_TRUSS <= classes[(mesh, name)].superclass <= M_INODE) {
        return InvalidClass;
      }
      if ConnWords((mesh, name)) == 0 {
        return Ok;
      }
      LoadElements((mesh, name), conns, mats, parts);
      return Ok;
    }

    lemma StillLoaded(files1: seq<seq<int>>, dirs1: seq<Dir>, i: nat, j: nat, kind: int, c: (int, Name),
                      done1: set<int>, done: set<int>)
      requires |dirs1| == |files1| == |files| == |dirs| && Grows(files1, dirs1, files, dirs)
      requires FilesGood(files1, dirs1, classes, dimensions, objects)
      requires SameEntries(dirs1, dirs) && IsData(kind)
      requires LoadedIn(files1, dirs1, i, j, kind, c, done1) && done1 <= done
      requires i < |files| && j < |dirs[i].entries| && (IsFor(i, j, kind, c) ==> RecordIds(i, j) <= done)
      ensures LoadedBefore(i, j + 1, kind, c, done)
    {
      hide FilesGood, NameOf, IdsFrom, StartAt;
      forall f: nat, g: nat, id | f < |files| && g < |dirs[f].entries| && (f < i || (f == i && g < j + 1))
                                && EntryFor(dirs[f], g, kind, c) && InRecordOf(files[f], dirs[f].entries[g], id)
        ensures id in done
      {
        if f < i || g < j {
          StartKept(files1, dirs1, files, dirs, classes, dimensions, objects, f, g);
          assert EntryFor(dirs1[f], g, kind, c) && InRecordOf(files1[f], dirs1[f].entries[g], id);
        } else {
          assert IsFor(i, j, kind, c) && InRecord(i, j, id) && id in RecordIds(i, j);
        }
      }
    }

    // Every element of the class has been loaded.
    lemma AllLoaded(kind: int, c: (int, Name), done: set<int>)
      requires Valid() && LoadedBefore(|files|, 0, kind, c, done)
      ensures forall id | Key(kind, c.0, c.1, id) in objects :: id in done
    {
      hide FilesGood, PlacesUnique, ClassGood, TotalStrings, Sealed, Settled, NameOf, StartAt;
      FilesCount(files, dirs, classes, dimensions, objects);
      forall id | Key(kind, c.0, c.1, id) in objects
        ensures id in done
      {
        var k := Key(kind, c.0, c.1, id);
        assert k in places && PlaceGood(files, dirs, k, places[k]);
      }
    }

    // The coordinates of n nodes, from start on, are overwritten in the record of entry j of file f.
    method OverwriteNodes(f: nat, j: nat, start: int, n: nat, data: seq<int>)
      requires Valid() && Updates(files, dirs, classes, dimensions, f, j, start, n, data)
      requires dirs[f].entries[j].kind == NODES
      modifies this`files, this`objects
      ensures Valid() && |files| == |old(files)|
      ensures old(Told()).Read? ==> Told() == old(Told())
      ensures objects == Updated(dirs, classes, dimensions, old(objects), f, j, start, n, data)
    {
      hide FilesGood, PlacesGood, PlacesUnique, ClassGood, TotalStrings, Updated, UpdateAt, Overwrite, NameOf, StartAt, WordsOf,
        Sealed, Replay, EntryGood;
      FamilyUpdated(files, dirs, classes, dimensions, objects, places, f, j, start, n, data);
      var x := UpdateAt(files[f], dirs[f], j, classes, dimensions, start);
      ghost var objects0 := objects;
      UpdateSeals(f, j, start, n, data);
      if Told().Read? {
        UpdateTells(f, j, start, n, data);
      }
      objects := Updated(dirs, classes, dimensions, objects, f, j, start, n, data);
      files := files[f := Overwrite(files[f], x, data)];
      forall c | c in classes
        ensures ClassGood(c, classes[c], objects)
      {
        SameIds(c, classes[c], objects0, objects);
      }
    }

    // What is told after an entry for a parameter, or for a class.
    lemma LastName(kind: int, modifier1: int, modifier2: int, names: seq<Name>, words: seq<int>)
      requires Valid() && LastIs(kind, modifier1, modifier2, names, words) && names != []
      ensures
        var d := dirs[|files| - 1];
        && 0 <= NameIndex(d, |d.entries| - 1) < |d.names| && NameOf(d, |d.entries| - 1) == names[0]
    {
      hide FilesGood, PlacesGood, PlacesUnique, ClassGood, Sealed;
      var d := dirs[|files| - 1];
      assert TotalStrings(d.entries) == TotalStrings(d.entries[..|d.entries| - 1]) + |names|;
      assert d.names[|d.names| - |names|..][0] == d.names[|d.names| - |names|];
    }

    lemma NameTold(m: Meshes, name: Name)
      requires Valid() && IsText(name)
      requires LastIs(MILI_PARAM, M_STRING, DONT_CARE, [MeshParam(|m.names|)], StringWords(name))
      ensures ReadLast(m) == Read(m.(names := m.names + [name]))
    {
      hide Valid, StringWords, MeshParam, TextOf, WordBytes, NameIndex, NameOf, ReadEntry, FileWords;
      LastName(MILI_PARAM, M_STRING, DONT_CARE, [MeshParam(|m.names|)], StringWords(name));
      TextBack(name);
      var d := dirs[|files| - 1];
      NameRead(m, files[|files| - 1], d, |d.entries| - 1, StringWords(name), name);
    }

    lemma NumberTold(m: Meshes, name: Name, x: int)
      requires Valid() && (name == Chars("mesh type") || name == Chars("mesh dimensions"))
      requires LastIs(MILI_PARAM, M_INT, SCALAR, [name], [x])
      ensures ReadLast(m) ==
        Read(if name == Chars("mesh type") then m.(meshType := x) else m.(dimensions := x))
    {
      hide Valid, MeshParam, TextOf, WordBytes, NameIndex, NameOf, Chars, ReadNodes, ReadElements, ReadClass;
      LastName(MILI_PARAM, M_INT, SCALAR, [name], [x]);
      var file := files[|files| - 1];
      assert file[|file| - 1..][0] == file[|file| - 1];
    }

    lemma ClassTold(m: Meshes, mesh: nat, superclass: nat, name: Name, longName: Name)
      requires Valid() && mesh < |m.names| && LastIs(CLASS_DEF, mesh, superclass, [name, longName], [])
      ensures ReadLast(m) == Read(
        if (mesh, name) in m.classes then m else m.(classes := m.classes[(mesh, name) := Class(superclass, [])]))
    {
      hide Valid, NameIndex, NameOf, ReadNodes, ReadElements, ReadParam;
      LastName(CLASS_DEF, mesh, superclass, [name, longName], []);
    }

    lemma UpdateSeals(f: nat, j: nat, start: int, n: nat, data: seq<int>)
      requires Valid() && Updates(files, dirs, classes, dimensions, f, j, start, n, data)
      ensures UpdateAt(files[f], dirs[f], j, classes, dimensions, start) + |data| <= |files[f]|
      ensures Sealed(files[f := Overwrite(files[f], UpdateAt(files[f], dirs[f], j, classes, dimensions, start), data)], dirs)
    {
      hide FilesGood, PlacesGood, PlacesUnique, ClassGood, TotalStrings, Updated, UpdateAt, Overwrite, NameOf, StartAt, WordsOf,
        Sealed, EntryGood;
      EntryIn(files, dirs, classes, dimensions, objects, f, j);
      UpdatedEntry(files, dirs, classes, dimensions, objects, f, j, start, n, data);
      GoodOffset(files[f], dirs[f], j, classes, dimensions, objects);
      SealedUpdated(files, dirs, f, j, UpdateAt(files[f], dirs[f], j, classes, dimensions, start), data);
    }

    lemma UpdateTells(f: nat, j: nat, start: int, n: nat, data: seq<int>)
      requires Valid() && Updates(files, dirs, classes, dimensions, f, j, start, n, data) && Told().Read?
      ensures UpdateAt(files[f], dirs[f], j, classes, dimensions, start) + |data| <= |files[f]|
      ensures
        var files' := files[f := Overwrite(files[f], UpdateAt(files[f], dirs[f], j, classes, dimensions, start), data)];
        Replay(files', dirs) == Told()
    {
      hide FilesGood, PlacesGood, PlacesUnique, ClassGood, TotalStrings, Updated, UpdateAt, Overwrite, NameOf, StartAt, WordsOf,
        Sealed, EntryGood, ReadEntry, ReplayTo;
      EntryIn(files, dirs, classes, dimensions, objects, f, j);
      UpdatedEntry(files, dirs, classes, dimensions, objects, f, j, start, n, data);
      GoodOffset(files[f], dirs[f], j, classes, dimensions, objects);
      FamilyUpdated(files, dirs, classes, dimensions, objects, places, f, j, start, n, data);
      var x := UpdateAt(files[f], dirs[f], j, classes, dimensions, start);
      var files' := files[f := Overwrite(files[f], x, data)];
      var objects' := Updated(dirs, classes, dimensions, objects, f, j, start, n, data);
      forall m, g: nat, h: nat | g < |files| && h < |dirs[g].entries| && ReadEntry(m, files[g], dirs[g], h).Read?
        ensures ReadEntry(m, files'[g], dirs[g], h) == ReadEntry(m, files[g], dirs[g], h)
      {
        UpdateReads(m, files, files', dirs, classes, dimensions, objects, objects', f, j, x, data, g, h);
      }
      ReplayAlike(files, files', dirs, |files|, 0);
    }

    lemma ValidCount()
      requires Valid()
      ensures |dirs| == |files| && |meshes| == qtyMeshes
    {
      hide FilesGood, PlacesGood, PlacesUnique, ClassGood, TotalStrings;
      FilesCount(files, dirs, classes, dimensions, objects);
    }

    // update_nodes_def: the first entry whose record holds the whole range is updated. When there is
    // none, the overlap is reported only if a file was open and no record was looked at: otherwise
    // the answer is that of the last file operation.
    method UpdateNodes(mesh: nat, name: Name, start: int, stop: int, data: seq<int>)
      returns (status: GeomStatus, ghost done: bool)
      requires Valid() && start <= stop && (mesh, name) in classes && |data| == (stop - start + 1) * dimensions
      modifies this`files, this`dirs, this`cur, this`commits, this`nextFreeByte, this`objects
      ensures Valid() && (old(Told()).Read? ==> Told() == old(Told()))
      ensures done <==> exists p :: InOneRecord(old(objects), old(places), (mesh, name), start, stop, p)
      ensures objects ==
        if done then old(objects) + NewObjects(NODES, mesh, name, start, stop - start + 1, dimensions, data)
        else old(objects)
      ensures status ==
        if !done && old(cur).Some? && NoneTried(old(dirs), |old(dirs)|, 0, (mesh, name), stop - start + 1) then RangeOverlap
        else Ok
    {
      hide Valid, InOneRecord, NoneHolds, NewObjects, NoneTried, Told;
      var c := (mesh, name);
      var savIndex := cur;
      var nodeQty := stop - start + 1;
      var searching := true;
      status := RangeOverlap;
      ghost var dirs0 := dirs;
      ValidCount();
      NoneYet(files, dirs, c, start, stop);
      NoneTriedYet(dirs, c, nodeQty);
      var i := 0;
      while i < |files| && searching
        invariant Valid() && |dirs| == |files| == |old(files)| == |dirs0| && i <= |files|
        invariant old(Told()).Read? ==> Told() == old(Told())
        invariant searching ==>
          && objects == old(objects) && NoneHolds(files, dirs, i, 0, c, start, stop) && SameEntries(dirs0, dirs)
          && status == (if NoneTried(dirs0, i, 0, c, nodeQty) then RangeOverlap else Ok)
          && (NoneTried(dirs0, i, 0, c, nodeQty) ==> cur == savIndex)
        invariant !searching ==>
          && status == Ok && (exists p :: InOneRecord(old(objects), places, c, start, stop, p))
          && objects == old(objects) + NewObjects(NODES, mesh, name, start, nodeQty, dimensions, data)
      {
        var entQty := |dirs[i].entries|;
        var j := 0;
        while j < entQty && searching
          invariant Valid() && |dirs| == |files| == |old(files)| == |dirs0| && i < |files|
          invariant old(Told()).Read? ==> Told() == old(Told())
          invariant j <= entQty == |dirs[i].entries|
          invariant searching ==>
            && objects == old(objects) && NoneHolds(files, dirs, i, j, c, start, stop) && SameEntries(dirs0, dirs)
            && status == (if NoneTried(dirs0, i, j, c, nodeQty) then RangeOverlap else Ok)
            && (NoneTried(dirs0, i, j, c, nodeQty) ==> cur == savIndex)
          invariant !searching ==>
            && status == Ok && (exists p :: InOneRecord(old(objects), places, c, start, stop, p))
            && objects == old(objects) + NewObjects(NODES, mesh, name, start, nodeQty, dimensions, data)
        {
          status, searching := UpdateEntry(i, j, savIndex, c, start, stop, data, status, dirs0);
          j := j + 1;
        }
        if searching {
          NoneNext(files, dirs, i, c, start, stop);
          NoneTriedNext(dirs0, dirs, i, c, nodeQty);
        }
        i := i + 1;
      }
      done := !searching;
      if searching {
        NotInOne(c, start, stop);
        assert objects == old(objects);
        assert places == old(places);
        assert forall p :: !InOneRecord(objects, places, c, start, stop, p);
      }
      if cur.None? || cur != savIndex {
        CloseFile();
        status := Ok;
      }
    }

    // One entry: updated if its record holds the whole range.
    method UpdateEntry(f: nat, j: nat, savIndex: Option<nat>, c: (int, Name), start: int, stop: int, data: seq<int>,
                       before: GeomStatus, ghost dirs0: seq<Dir>)
      returns (status: GeomStatus, searching: bool)
      requires Valid() && f < |files| && j < |dirs[f].entries| && start <= stop && c in classes
      requires |data| == (stop - start + 1) * dimensions && NoneHolds(files, dirs, f, j, c, start, stop)
      requires |dirs0| == |dirs| && SameEntries(dirs0, dirs)
      requires before == if NoneTried(dirs0, f, j, c, stop - start + 1) then RangeOverlap else Ok
      requires NoneTried(dirs0, f, j, c, stop - start + 1) ==> cur == savIndex
      modifies this`files, this`dirs, this`cur, this`commits, this`nextFreeByte, this`objects
      ensures Valid() && |dirs| == |files| == |old(files)| && |dirs[f].entries| == |old(dirs)[f].entries|
      ensures old(Told()).Read? ==> Told() == old(Told())
      ensures searching ==> objects == old(objects) && NoneHolds(files, dirs, f, j + 1, c, start, stop)
      ensures searching ==> SameEntries(dirs0, dirs)
      ensures searching ==> status == if NoneTried(dirs0, f, j + 1, c, stop - start + 1) then RangeOverlap else Ok
      ensures searching && NoneTried(dirs0, f, j + 1, c, stop - start + 1) ==> cur == savIndex
      ensures !searching ==> status == Ok && InOneRecord(old(objects), places, c, start, stop, (f, j))
      ensures !searching ==> objects == old(objects) + NewObjects(NODES, c.0, c.1, start, stop - start + 1, dimensions, data)
    {
      hide Valid, Told, FilesGood, PlacesUnique, Grows, NameOf, NewObjects, NoneTried, NoneHolds, InOneRecord;
      var nodeQty := stop - start + 1;
      FilesOf(c);
      TriedOrNot(dirs0, dirs, f, j, c, nodeQty);
      if !(NodesFor(dirs[f], j, c) && dirs[f].entries[j].modifier2 >= nodeQty) {
        RecordTooSmall(files, dirs, f, j, c, start, stop);
        return before, true;
      }
      ghost var files1, dirs1 := files, dirs;
      OpenFile(f);
      FilesOf(c);
      NoneStillHolds(files1, dirs1, files, dirs, classes, dimensions, objects, f, j, c, start, stop);
      NodesForSame(dirs1[f], dirs[f], j, c);
      var file, e := files[f], dirs[f].entries[j];
      NodeParts(files, dirs, classes, dimensions, objects, f, j, c);
      var o := e.offset / 4;
      if start >= file[o] && stop <= file[o + 1] {
        RecordHolds(files, dirs, classes, dimensions, objects, places, f, j, c, start, stop);
        OverwriteNodes(f, j, start, nodeQty, data);
        FilesOf(c);
        return Ok, false;
      }
      ghost var files2, dirs2 := files, dirs;
      OneMore(files, dirs, f, j, c, start, stop);
      if cur != savIndex {
        CloseFile();
        FilesOf(c);
        NoneStillHolds(files2, dirs2, files, dirs, classes, dimensions, objects, f, j + 1, c, start, stop);
      }
      return Ok, true;
    }

    lemma NotInOne(c: (int, Name), start: int, stop: int)
      requires Valid() && start <= stop && NoneHolds(files, dirs, |files|, 0, c, start, stop)
      ensures !exists p :: InOneRecord(objects, places, c, start, stop, p)
    {
      hide FilesGood, PlacesUnique;
      forall p | InOneRecord(objects, places, c, start, stop, p)
        ensures false
      {
        PlaceHolds(files, dirs, objects, places, c, start, stop, p);
      }
    }

    // mc_def_nodes: new nodes, or new coordinates for nodes of one earlier range. A range that is
    // neither is not always reported: see UpdateNodes.
    method DefNodes(mesh: nat, name: Name, start: int, stop: int, data: seq<int>) returns (status: GeomStatus, ghost written: bool)
      requires Valid() && start <= stop && |data| == (stop - start + 1) * dimensions
      modifies this`files, this`dirs, this`classes, this`nextFreeByte, this`objects, this`places, this`cur, this`commits
      ensures Valid() && classes.Keys == old(classes.Keys) && (old(Reopens()) ==> Reopens())
      ensures written <==>
        && mesh < qtyMeshes && (mesh, name) in old(classes) && old(classes)[(mesh, name)].superclass == M_NODE
        && ((forall id | start <= id <= stop :: !Defined(old(objects), (mesh, name), id))
            || (exists p :: InOneRecord(old(objects), old(places), (mesh, name), start, stop, p)))
      ensures objects ==
        if written then old(objects) + NewObjects(NODES, mesh, name, start, stop - start + 1, dimensions, data)
        else old(objects)
      ensures status ==
        if mesh >= qtyMeshes then NoMesh
        else if (mesh, name) !in old(classes) then NotFound
        else if old(classes)[(mesh, name)].superclass != M_NODE then SuperclassConflict
        else if !written && old(cur).Some? && NoneTried(old(dirs), |old(dirs)|, 0, (mesh, name), stop - start + 1) then RangeOverlap
        else Ok
      ensures (mesh, name) in classes ==> classes[(mesh, name)].superclass == old(classes)[(mesh, name)].superclass
      ensures written && (forall id | start <= id <= stop :: !Defined(old(objects), (mesh, name), id)) ==>
        InNewRecord(old(objects), old(places), places, NewObjects(NODES, mesh, name, start, stop - start + 1, dimensions, data))
    {
      hide Valid, Told, NewObjects, InNewRecord, InOneRecord, NoneTried;
      written := false;
      if mesh >= qtyMeshes {
        return NoMesh, written;
      }
      if (mesh, name) !in classes {
        return NotFound, written;
      }
      if classes[(mesh, name)].superclass != M_NODE {
        return SuperclassConflict, written;
      }
      var ok := Define(NODES, mesh, name, start, stop, data);
      if ok {
        return Ok, true;
      }
      status, written := UpdateNodes(mesh, name, start, stop, data);
    }

    // The coordinates of the nodes in done are loaded, and the others are as they were.
    ghost predicate CoordsDone(done: set<int>, c: (int, Name), a: seq<int>, a': seq<int>)
      reads this`objects, this`dimensions
    {
      && |a'| == |a|
      && (forall id | id in done ::
            Key(NODES, c.0, c.1, id) in objects && CoordsAre(a', dimensions, id, objects[Key(NODES, c.0, c.1, id)]))
      && (forall x | x !in done :: CoordsSame(a, a', dimensions, x))
    }

    // One entry: loaded, as load_nodes_def does, if it is for the class.
    method LoadNodeEntry(f: nat, j: nat, coords: array<int>, c: (int, Name), ghost done: set<int>, ghost a: seq<int>)
      returns (ghost done': set<int>)
      requires Valid() && f < |files| && j < |dirs[f].entries|
      requires forall id | Key(NODES, c.0, c.1, id) in objects :: HasCoords(coords.Length, dimensions, id)
      requires CoordsDone(done, c, a, coords[..])
      modifies this`files, this`dirs, this`cur, this`commits, this`nextFreeByte, coords
      ensures Valid() && Grows(old(files), old(dirs), files, dirs) && |files| == |old(files)|
      ensures SameEntries(old(dirs), dirs) && |dirs| == |files|
      ensures old(Told()).Read? ==> Told() == old(Told())
      ensures CoordsDone(done', c, a, coords[..]) && done <= done'
      ensures IsFor(f, j, NODES, c) ==> RecordIds(f, j) <= done'
    {
      hide CoordsAre, CoordsSame, HasCoords, FilesGood, PlacesGood, PlacesUnique, ClassGood, Grows, Sealed, Told;
      done' := done;
      FilesCount(files, dirs, classes, dimensions, objects);
      if !IsFor(f, j, NODES, c) {
        FilesGrowSelf(files, dirs);
        return;
      }
      ghost var a1 := coords[..];
      OpenFile(f);
      FilesCount(files, dirs, classes, dimensions, objects);
      NodeParts(files, dirs, classes, dimensions, objects, f, j, c);
      var file, e := files[f], dirs[f].entries[j];
      var o := e.offset / 4;
      var start, stop := file[o], file[o + 1];
      forall id | start <= id <= stop
        ensures HasCoords(coords.Length, dimensions, id)
      {
        assert Key(NODES, c.0, c.1, id) in objects;
      }
      assert coords[..] == a1;
      LoadCoords(file, o + 2, dimensions, start, stop - start + 1, coords);
      ghost var more := IdsFrom(start, stop - start + 1);
      done' := done + more;
      forall id | id in done'
        ensures Key(NODES, c.0, c.1, id) in objects && CoordsAre(coords[..], dimensions, id, objects[Key(NODES, c.0, c.1, id)])
      {
        if id in more {
          assert objects[Key(NODES, c.0, c.1, id)] == ObjectOf(file, o + 2, dimensions, start, id);
        } else {
          CoordsStay(a1, coords[..], dimensions, id, objects[Key(NODES, c.0, c.1, id)]);
        }
      }
      forall x | x !in done'
        ensures CoordsSame(a, coords[..], dimensions, x)
      {
        CoordsTwice(a, a1, coords[..], dimensions, x);
      }
    }

    // The nodes of a class are at their places, and everything else is as it was.
    ghost predicate AllCoords(c: (int, Name), a: seq<int>, a': seq<int>)
      reads this`objects, this`dimensions
    {
      && (forall id | Key(NODES, c.0, c.1, id) in objects ::
            CoordsAre(a', dimensions, id, objects[Key(NODES, c.0, c.1, id)]))
      && (forall x | Key(NODES, c.0, c.1, x) !in objects :: CoordsSame(a, a', dimensions, x))
    }

    ghost predicate CoordsFit(c: (int, Name), coords: nat)
      reads this`objects, this`dimensions
    {
      forall id | Key(NODES, c.0, c.1, id) in objects :: HasCoords(coords, dimensions, id)
    }

    // The loops of mc_load_nodes for nodes.
    method LoadNodeRecords(c: (int, Name), coords: array<int>)
      requires Valid() && CoordsFit(c, coords.Length)
      modifies this`files, this`dirs, this`cur, this`commits, this`nextFreeByte, coords
      ensures Valid() && AllCoords(c, old(coords[..]), coords[..])
      ensures old(Told()).Read? ==> Told() == old(Told())
    {
      hide CoordsAre, CoordsSame, HasCoords, FilesGood, PlacesGood, PlacesUnique, ClassGood, Grows, InRecord, NameOf, Sealed, Told;
      ghost var a := coords[..];
      CoordsSelf(a, dimensions);
      ghost var done: set<int> := {};
      FilesCount(files, dirs, classes, dimensions, objects);
      var i := 0;
      while i < |files|
        invariant Valid() && |dirs| == |files| == |old(files)| && i <= |files|
        invariant CoordsDone(done, c, a, coords[..]) && LoadedBefore(i, 0, NODES, c, done)
        invariant old(Told()).Read? ==> Told() == old(Told())
      {
        var entQty := |dirs[i].entries|;
        var j := 0;
        while j < entQty
          invariant Valid() && |dirs| == |files| == |old(files)| && i < |files|
          invariant |dirs[i].entries| == entQty && j <= entQty
          invariant CoordsDone(done, c, a, coords[..]) && LoadedBefore(i, j, NODES, c, done)
          invariant old(Told()).Read? ==> Told() == old(Told())
        {
          ghost var files1, dirs1, done1 := files, dirs, done;
          done := LoadNodeEntry(i, j, coords, c, done, a);
          StillLoaded(files1, dirs1, i, j, NODES, c, done1, done);
          j := j + 1;
        }
        i := i + 1;
      }
      AllLoaded(NODES, c, done);
    }

    // What the caller of mc_load_nodes must pass: room for the coordinates of a class of nodes,
    // and three arrays for a class of elements.
    ghost predicate Receives(mesh: int, name: Name, data: Destination)
      reads this`classes, this`objects, this`dimensions
    {
      var c := (mesh, name);
      c in classes ==>
        && (classes[c].superclass == M_NODE ==> data.Coords? && CoordsFit(c, data.coords.Length))
        && (IsElement(classes[c].superclass) ==>
              (data.Elements? && ConnWords(c) > 0 && RowsFit(c, data.conns.Length, data.mats.Length, data.parts.Length)))
    }

    // mc_load_nodes
    method LoadNodes(mesh: int, name: Name, data: Destination) returns (status: GeomStatus)
      requires Valid() && data.Apart() && Receives(mesh, name, data)
      modifies this`files, this`dirs, this`cur, this`commits, this`nextFreeByte, data.Arrays()
      ensures Valid() && (old(Reopens()) ==> Reopens())
      ensures status ==
        if mesh < 0 || mesh >= qtyMeshes then NoMesh
        else if (mesh, name) !in classes then NotFound
        else if !(M_NODE <= classes[(mesh, name)].superclass <= M_HEX) then InvalidClass
        else Ok
      ensures status == Ok && data.Coords? ==> AllCoords((mesh, name), old(data.coords[..]), data.coords[..])
      ensures status == Ok && data.Elements? ==>
        && ConnWords((mesh, name)) > 0
        && AllRows((mesh, name), old(data.conns[..]), old(data.mats[..]), old(data.parts[..]),
                   data.conns[..], data.mats[..], data.parts[..])
      ensures status != Ok && data.Coords? ==> data.coords[..] == old(data.coords[..])
      ensures status != Ok && data.Elements? ==>
        data.conns[..] == old(data.conns[..]) && data.mats[..] == old(data.mats[..]) && data.parts[..] == old(data.parts[..])
    {
      hide RowsFit, AllRows, CoordsFit, AllCoords, Valid, WordsEach, Told;
      if mesh < 0 || mesh >= qtyMeshes {
        return NoMesh;
      }
      if (mesh, name) !in classes {
        return NotFound;
      }
      var superclass := classes[(mesh, name)].superclass;
      if superclass < M_NODE || superclass > M_HEX {
        return InvalidClass;
      }
      if superclass == M_NODE {
        LoadNodeRecords((mesh, name), data.coords);
      } else {
        LoadElements((mesh, name), data.conns, data.mats, data.parts);
      }
      return Ok;
    }
  }
}
