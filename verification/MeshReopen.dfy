/**
 A family is closed, and its files are opened again: the directories are read from the ends of
 the files, and the meshes with their classes are set up from the entries.
 */
module MeshReopen {
  import opened Wrappers
  import opened MeshRanges
  import opened Directory
  import D = DirectoryLoad
  import opened MeshRecords
  import opened MeshLoad
  import opened MeshFiles
  import opened MeshReplay
  import opened MeshFamily

  // ----- the loops of init_meshes -----

  // The blocks of an element record.
  method TakeBlocks(m: Meshes, mesh: int, name: Name, file: seq<int>, p: nat, n: nat) returns (r: Replayed<Meshes>)
    requires p + 2 * n <= |file|
    ensures r == AddBlocks(m, mesh, name, file, p, n)
  {
    hide AddGeom;
    r := Read(m);
    for k := 0 to n
      invariant r.Read? && AddBlocks(m, mesh, name, file, p, n) == AddBlocks(r.value, mesh, name, file, p + 2 * k, n - k)
    {
      r := AddGeom(r.value, mesh, name, file[p + 2 * k], file[p + 2 * k + 1]);
      if r.Stopped? {
        return;
      }
    }
  }

  // One entry; its names begin at nameCnt.
  method TakeEntry(m: Meshes, file: seq<int>, d: Dir, j: nat, nameCnt: int) returns (r: Replayed<Meshes>)
    requires j < |d.entries| && nameCnt == NameIndex(d, j)
    ensures r == ReadEntry(m, file, d, j)
  {
    hide AddGeom, AddBlocks, MeshParam, Chars, TextOf, WordBytes, NameIndex;
    var e := d.entries[j];
    if !Describes(e.kind) {
      return Read(m);
    }
    if !(0 <= nameCnt < |d.names|) {
      return Stopped(MissingName);
    }
    var name := d.names[nameCnt];
    if e.kind == NODES {
      r := ReadNodes(m, file, e, name);
    } else if e.kind == ELEM_CONNS {
      var o := e.offset / 4;
      if o < 0 || o + 2 > |file| || file[o + 1] < 0 || o + 2 + 2 * file[o + 1] > |file| {
        return Stopped(ShortRead);
      }
      r := TakeBlocks(m, e.modifier1, name, file, o + 2, file[o + 1]);
    } else if e.kind == MILI_PARAM {
      r := ReadParam(m, file, e, name);
    } else {
      r := ReadClass(m, e, name);
    }
  }

  // init_meshes
  method InitMeshes(files: seq<seq<int>>, dirs: seq<Dir>) returns (r: Replayed<Meshes>)
    requires |dirs| == |files|
    ensures r == Replay(files, dirs)
  {
    hide ReadEntry, NameIndex;
    r := Read(Meshes(0, 0, [], map[]));
    var i := 0;
    while i < |files|
      invariant i <= |files| && r.Read? && r == ReplayTo(files, dirs, i, 0)
    {
      var nameCnt, j := 0, 0;
      FirstName(dirs[i]);
      while j < |dirs[i].entries|
        invariant j <= |dirs[i].entries| && nameCnt == NameIndex(dirs[i], j)
        invariant r.Read? && r == ReplayTo(files, dirs, i, j)
      {
        NextName(dirs[i], j);
        r := TakeEntry(r.value, files[i], dirs[i], j, nameCnt);
        nameCnt := nameCnt + dirs[i].entries[j].stringQty;
        j := j + 1;
        if r.Stopped? {
          ReplayStops(files, dirs, i, j, |files|, 0);
          return;
        }
      }
      i := i + 1;
    }
  }

  lemma FirstName(d: Dir)
    ensures NameIndex(d, 0) == 0
  {
    assert d.entries[..0] == [];
  }

  lemma NextName(d: Dir, j: nat)
    requires j < |d.entries|
    ensures NameIndex(d, j + 1) == NameIndex(d, j) + d.entries[j].stringQty
  {
    assert d.entries[..j + 1][..j] == d.entries[..j];
  }

  // The first entry that cannot be read ends it.
  lemma {:induction false} ReplayStops(files: seq<seq<int>>, dirs: seq<Dir>, f: nat, j: nat, f': nat, j': nat)
    requires Before(files, dirs, f, j) && Before(files, dirs, f', j') && (f < f' || (f == f' && j <= j'))
    requires ReplayTo(files, dirs, f, j).Stopped?
    ensures ReplayTo(files, dirs, f', j') == ReplayTo(files, dirs, f, j)
    decreases f', j'
  {
    hide ReadEntry;
    if f < f' || j < j' {
      if j' > 0 {
        ReplayStops(files, dirs, f, j, f', j' - 1);
      } else {
        ReplayStops(files, dirs, f, j, f' - 1, |dirs[f' - 1].entries|);
      }
    }
  }

  // ----- bytes and words -----

  // Four-byte words come back from their bytes.
  lemma {:induction false} WordsOfBytes(words: seq<int>)
    requires forall i | 0 <= i < |words| :: Fits(words[i], 4)
    ensures FileWords(WordBytes(words)) == words
    decreases |words|
  {
    hide Number, Bytes, Fits, FileWords;
    if words != [] {
      var n := |words| - 1;
      var last := Bytes(words[n], 4);
      WordsOfBytes(words[..n]);
      assert Number(last) == words[n] by {
        NumberBytes(words[n], 4);
      }
      assert WordBytes(words) == WordBytes(words[..n]) + last;
      hide WordBytes;
      WordsMore(WordBytes(words[..n]), last);
      assert words == words[..n] + [words[n]];
    } else {
      NoWords();
    }
  }

  lemma NoWords()
    ensures FileWords([]) == []
  {
  }

  lemma WordsMore(b: seq<int>, last: seq<int>)
    requires |b| % 4 == 0 && |last| == 4
    ensures FileWords(b + last) == FileWords(b) + [Number(last)]
  {
    hide FileWords;
    WordsLess(b + last);
    assert (b + last)[..|b|] == b && (b + last)[|b|..] == last;
  }

  lemma {:induction false} BytesJoin(xs: seq<int>, ys: seq<int>)
    ensures WordBytes(xs + ys) == WordBytes(xs) + WordBytes(ys)
    decreases |ys|
  {
    hide Bytes;
    if ys == [] {
      assert xs + ys == xs;
    } else {
      var n := |ys| - 1;
      BytesJoin(xs, ys[..n]);
      assert (xs + ys)[..|xs| + n] == xs + ys[..n];
    }
  }

  lemma BytesTogether(x: seq<int>, y: seq<int>)
    requires AreBytes(x) && AreBytes(y)
    ensures AreBytes(x + y)
  {
  }

  lemma {:induction false} NamesAreBytes(names: seq<Name>)
    requires forall i | 0 <= i < |names| :: IsName(names[i])
    ensures AreBytes(NameBytes(names))
    decreases |names|
  {
    hide AreBytes, IsName;
    if names != [] {
      var n := |names| - 1;
      NamesAreBytes(names[..n]);
      NameIsBytes(names[n]);
      BytesTogether(NameBytes(names[..n]), names[n]);
      BytesTogether(NameBytes(names[..n]) + names[n], [0]);
    } else {
      NoBytes();
    }
  }

  lemma NoBytes()
    ensures AreBytes([]) && AreBytes([0])
  {
  }

  lemma NameIsBytes(s: Name)
    requires IsName(s)
    ensures AreBytes(s) && AreBytes([0])
  {
  }

  lemma NumberIsBytes(x: int, n: nat)
    ensures AreBytes(Bytes(x, n))
  {
  }

  lemma EntryIsBytes(e: Entry)
    ensures AreBytes(EntryBytes(e))
  {
    hide Bytes, AreBytes;
    NumberIsBytes(e.kind, 8);
    NumberIsBytes(e.modifier1, 8);
    NumberIsBytes(e.modifier2, 8);
    NumberIsBytes(e.stringQty, 8);
    NumberIsBytes(e.offset, 8);
    NumberIsBytes(e.length, 8);
    BytesTogether(Bytes(e.kind, 8), Bytes(e.modifier1, 8));
    BytesTogether(Bytes(e.kind, 8) + Bytes(e.modifier1, 8), Bytes(e.modifier2, 8));
    var x := Bytes(e.kind, 8) + Bytes(e.modifier1, 8) + Bytes(e.modifier2, 8);
    BytesTogether(x, Bytes(e.stringQty, 8));
    BytesTogether(x + Bytes(e.stringQty, 8), Bytes(e.offset, 8));
    BytesTogether(x + Bytes(e.stringQty, 8) + Bytes(e.offset, 8), Bytes(e.length, 8));
  }

  lemma {:induction false} EntriesAreBytes(es: seq<Entry>)
    ensures AreBytes(EntriesBytes(es))
    decreases |es|
  {
    hide EntryBytes, AreBytes;
    if es != [] {
      var n := |es| - 1;
      EntriesAreBytes(es[..n]);
      EntryIsBytes(es[n]);
      BytesTogether(EntriesBytes(es[..n]), EntryBytes(es[n]));
    } else {
      NoBytes();
    }
  }

  lemma HeaderIsBytes(a: int, b: int, c: int, d: int)
    ensures AreBytes(HeaderBytes(a, b, c, d))
  {
    hide Bytes, AreBytes;
    NumberIsBytes(a, 4);
    NumberIsBytes(b, 4);
    NumberIsBytes(c, 4);
    NumberIsBytes(d, 4);
    BytesTogether(Bytes(a, 4), Bytes(b, 4));
    BytesTogether(Bytes(a, 4) + Bytes(b, 4), Bytes(c, 4));
    BytesTogether(Bytes(a, 4) + Bytes(b, 4) + Bytes(c, 4), Bytes(d, 4));
  }

  lemma PaddedIsBytes(names: seq<Name>)
    requires forall i | 0 <= i < |names| :: IsName(names[i])
    ensures AreBytes(PaddedNames(names))
  {
    NamesAreBytes(names);
    hide NameBytes;
  }

  lemma DirectoryWords(es: seq<Entry>, names: seq<Name>, commitCount: int)
    requires forall i | 0 <= i < |names| :: IsName(names[i])
    ensures WordBytes(FileWords(DirectoryBytes(es, names, commitCount))) == DirectoryBytes(es, names, commitCount)
  {
    hide PaddedNames, EntriesBytes, HeaderBytes, WordBytes, FileWords, AreBytes, IsName;
    PaddedIsBytes(names);
    EntriesAreBytes(es);
    HeaderIsBytes(|PaddedNames(names)|, commitCount, |es|, 0);
    BytesTogether(PaddedNames(names), EntriesBytes(es));
    BytesTogether(PaddedNames(names) + EntriesBytes(es), HeaderBytes(|PaddedNames(names)|, commitCount, |es|, 0));
    BytesOfWords(DirectoryBytes(es, names, commitCount));
  }

  // ----- a family that can be read back -----

  // What fits in the file: words, names and numbers.
  predicate Storable(file: seq<int>, d: Dir) {
    && (forall i | 0 <= i < |file| :: Fits(file[i], 4))
    && Representable(d.entries, d.names, d.commits)
    && (forall i | 0 <= i < |d.names| :: IsName(d.names[i])) && (forall i | 0 <= i < |d.entries| :: d.entries[i].stringQty >= 0)
    && (d.names == [] || D.ParamsNamed(d.entries))
  }

  // One file: its directory comes back, and its words.
  lemma FileBack(file: seq<int>, d: Dir)
    requires Storable(file, d) && d.entries != [] && SealedFile(file, d) && TotalStrings(d.entries) == |d.names|
    ensures FileWords(WordBytes(file)) == file
    ensures
      var r := D.LoadDir(WordBytes(file));
      r.Ok? && Dir(r.value.entries, r.value.names, r.value.commitCount) == d
  {
    WordsOfBytes(file);
    var n: nat :| EndsAt(file, d, n);
    hide *;
    DirectoryBack(file, d, n);
  }

  lemma DirectoryBack(file: seq<int>, d: Dir, n: nat)
    requires Storable(file, d) && d.entries != [] && EndsAt(file, d, n) && TotalStrings(d.entries) == |d.names|
    ensures
      var r := D.LoadDir(WordBytes(file));
      r.Ok? && Dir(r.value.entries, r.value.names, r.value.commitCount) == d
  {
    hide Tidy, FileWords, DirectoryBytes, WordBytes, Fits, D.LoadDir, Representable, D.ParamsNamed, TotalStrings, IsName;
    var c := D.Committed(WordBytes(file[..n]), d.entries, d.names, d.commits);
    assert D.Loadable(c);
    assert D.FileOf(c) == WordBytes(file) by {
      DirectoryWords(d.entries, d.names, d.commits);
      BytesJoin(file[..n], file[n..]);
      assert file == file[..n] + file[n..];
    }
    D.CommittedFile(c);
  }

  function BytesOf(files: seq<seq<int>>): (b: seq<seq<int>>)
    ensures |b| == |files| && forall f | 0 <= f < |files| :: b[f] == WordBytes(files[f])
  {
    seq(|files|, f requires 0 <= f < |files| => WordBytes(files[f]))
  }

  function WordsOf(bytes: seq<seq<int>>): (files: seq<seq<int>>)
    ensures |files| == |bytes| && forall f | 0 <= f < |bytes| :: files[f] == FileWords(bytes[f])
  {
    seq(|bytes|, f requires 0 <= f < |bytes| => FileWords(bytes[f]))
  }

  function DirsOf(ls: seq<D.Loaded>): (dirs: seq<Dir>)
    ensures |dirs| == |ls|
    ensures forall f | 0 <= f < |ls| :: dirs[f] == Dir(ls[f].entries, ls[f].names, ls[f].commitCount)
  {
    seq(|ls|, f requires 0 <= f < |ls| => Dir(ls[f].entries, ls[f].names, ls[f].commitCount))
  }

  // All directories are loaded when each of them is.
  lemma {:induction false} LoadEach(files: seq<seq<int>>)
    ensures D.LoadAll(files).Ok? <==> forall f | 0 <= f < |files| :: D.LoadDir(files[f]).Ok?
    ensures D.LoadAll(files).Ok? ==>
      && |D.LoadAll(files).value| == |files|
      && forall f | 0 <= f < |files| :: D.LoadDir(files[f]) == D.Ok(D.LoadAll(files).value[f])
    decreases |files|
  {
    hide D.LoadDir;
    if files != [] {
      var n := |files| - 1;
      LoadEach(files[..n]);
      forall f | 0 <= f < n
        ensures files[..n][f] == files[f]
      {
      }
    }
  }

  ghost predicate AllStorable(files: seq<seq<int>>, dirs: seq<Dir>) {
    |dirs| == |files| && forall f | 0 <= f < |files| && dirs[f].entries != [] :: Storable(files[f], dirs[f])
  }

  // Every file has entries.
  predicate NoneEmpty(dirs: seq<Dir>) {
    forall f | 0 <= f < |dirs| :: dirs[f].entries != []
  }

  lemma EmptyFile()
    ensures D.LoadDir(WordBytes([])).Err?
  {
  }

  // The files of a closed family can be loaded exactly when none of them is empty, and then
  // files and directories are what they were.
  lemma AllBack(files: seq<seq<int>>, dirs: seq<Dir>)
    requires Sealed(files, dirs) && Settled(files, dirs, None) && AllStorable(files, dirs)
    requires forall f | 0 <= f < |dirs| :: TotalStrings(dirs[f].entries) == |dirs[f].names|
    ensures
      var r := D.LoadAll(BytesOf(files));
      && (r.Ok? <==> NoneEmpty(dirs))
      && (r.Ok? ==> |r.value| == |files| && DirsOf(r.value) == dirs && WordsOf(BytesOf(files)) == files)
  {
    hide Storable, SealedFile, D.LoadDir, D.LoadAll, TotalStrings, FileWords, WordBytes;
    LoadEach(BytesOf(files));
    EmptyFile();
    forall f | 0 <= f < |files| && dirs[f].entries != []
      ensures FileWords(WordBytes(files[f])) == files[f]
      ensures
        var r := D.LoadDir(WordBytes(files[f]));
        r.Ok? && Dir(r.value.entries, r.value.names, r.value.commitCount) == dirs[f]
    {
      FileBack(files[f], dirs[f]);
    }
  }

  // What a family tells is what it knows.
  lemma FamilyParts(fam: Family)
    requires fam.Valid() && fam.Reopens()
    ensures |fam.dirs| == |fam.files| && Sealed(fam.files, fam.dirs) && Settled(fam.files, fam.dirs, fam.cur)
    ensures forall f | 0 <= f < |fam.dirs| :: TotalStrings(fam.dirs[f].entries) == |fam.dirs[f].names|
    ensures Replay(fam.files, fam.dirs) == Read(Meshes(fam.meshType, fam.dimensions, fam.meshes, fam.classes))
    ensures |fam.meshes| == fam.qtyMeshes
  {
    hide FilesGood, PlacesGood, PlacesUnique, ClassGood, TotalStrings, KeysIn, Sealed, Replay, Settled;
    FilesCount(fam.files, fam.dirs, fam.classes, fam.dimensions, fam.objects);
  }

  // The same parts make a valid family.
  lemma SameParts(fam0: Family, fam: Family)
    requires fam0.Valid() && fam0.Reopens() && fam0.cur == None == fam.cur && fam.commits >= 0
    requires fam.files == fam0.files && fam.dirs == fam0.dirs
    requires fam.meshType == fam0.meshType && fam.dimensions == fam0.dimensions && fam.meshes == fam0.meshes
    requires fam.qtyMeshes == fam0.qtyMeshes && fam.classes == fam0.classes
    requires fam.objects == fam0.objects && fam.places == fam0.places
    ensures fam.Valid() && fam.Reopens() && SameFamily(fam0, fam)
  {
    hide FilesGood, PlacesGood, PlacesUnique, ClassGood, NamesCounted, KeysIn, Sealed, Replay, Settled;
    FilesCount(fam.files, fam.dirs, fam.classes, fam.dimensions, fam.objects);
  }

  // The files of a family that was closed, bytes, are opened: it is the same family again, unless
  // a file was begun and nothing was put into it.
  method OpenFamily(bytes: seq<seq<int>>, ghost fam0: Family) returns (ok: bool, fam: Family)
    requires fam0.Valid() && fam0.Reopens() && fam0.cur == None
    requires bytes == BytesOf(fam0.files) && AllStorable(fam0.files, fam0.dirs)
    ensures fresh(fam) && (ok <==> NoneEmpty(fam0.dirs))
    ensures ok ==> fam.Valid() && fam.Reopens() && SameFamily(fam0, fam)
  {
    hide *;
    FamilyParts(fam0);
    AllBack(fam0.files, fam0.dirs);
    fam := new Family();
    var ls, commits := D.LoadDirectories(bytes, 0);
    if ls.Err? {
      return false, fam;
    }
    var files, dirs := WordsOf(bytes), DirsOf(ls.value);
    var m := InitMeshes(files, dirs);
    Adopt(fam, files, dirs, commits, m.value, fam0.objects, fam0.places);
    SameParts(fam0, fam);
    return true, fam;
  }

  // What is read becomes the family's.
  method Adopt(fam: Family, files: seq<seq<int>>, dirs: seq<Dir>, commits: int, m: Meshes,
               ghost objects: Objects, ghost places: map<Key, (nat, nat)>)
    requires m.dimensions >= 0
    modifies fam
    ensures fam.files == files && fam.dirs == dirs && fam.commits == commits && fam.cur == old(fam.cur)
    ensures fam.meshType == m.meshType && fam.dimensions == m.dimensions && fam.meshes == m.names
    ensures fam.qtyMeshes == |m.names| && fam.classes == m.classes && fam.objects == objects && fam.places == places
  {
    fam.files, fam.dirs, fam.commits := files, dirs, commits;
    fam.meshType, fam.dimensions, fam.meshes, fam.qtyMeshes := m.meshType, m.dimensions, m.names, |m.names|;
    fam.classes, fam.objects, fam.places := m.classes, objects, places;
  }

  ghost predicate SameFamily(fam0: Family, fam: Family)
    reads fam0, fam
  {
    && fam.files == fam0.files && fam.dirs == fam0.dirs && fam.cur == None
    && fam.meshType == fam0.meshType && fam.dimensions == fam0.dimensions && fam.meshes == fam0.meshes
    && fam.qtyMeshes == fam0.qtyMeshes && fam.classes == fam0.classes && fam.objects == fam0.objects
  }

  // What was written for the elements of a class is what the family loads that is opened again.
  method ReadBack(bytes: seq<seq<int>>, ghost fam0: Family, mesh: int, name: Name, conns: array<int>, mats: array<int>,
                  parts: array<int>)
    returns (ok: bool, status: GeomStatus)
    requires fam0.Valid() && fam0.Reopens() && fam0.cur == None
    requires bytes == BytesOf(fam0.files) && AllStorable(fam0.files, fam0.dirs)
    requires conns != mats && conns != parts && mats != parts
    requires (mesh, name) in fam0.classes && fam0.ConnWords((mesh, name)) > 0 ==>
      fam0.RowsFit((mesh, name), conns.Length, mats.Length, parts.Length)
    modifies conns, mats, parts
    ensures ok <==> NoneEmpty(fam0.dirs)
    ensures ok ==> (status ==
      if mesh < 0 || mesh >= fam0.qtyMeshes then NoMesh
      else if (mesh, name) !in fam0.classes then NotFound
      else if !(M_TRUSS <= fam0.classes[(mesh, name)].superclass <= M_INODE) then InvalidClass
      else Ok)
    ensures ok && status == Ok && fam0.ConnWords((mesh, name)) > 0 ==>
      fam0.AllRows((mesh, name), old(conns[..]), old(mats[..]), old(parts[..]), conns[..], mats[..], parts[..])
  {
    hide Family.Valid, Family.Reopens, Family.Told, AllStorable, NoneEmpty, BytesOf, RowIs, RowSame, HasRow, WordsEach;
    var fam;
    ok, fam := OpenFamily(bytes, fam0);
    if !ok {
      return false, NotFound;
    }
    status := fam.LoadConns(mesh, name, conns, mats, parts);
  }

  // The same for nodes.
  method ReadNodesBack(bytes: seq<seq<int>>, ghost fam0: Family, mesh: int, name: Name, coords: array<int>)
    returns (ok: bool, status: GeomStatus)
    requires fam0.Valid() && fam0.Reopens() && fam0.cur == None
    requires bytes == BytesOf(fam0.files) && AllStorable(fam0.files, fam0.dirs)
    requires (mesh, name) in fam0.classes && fam0.classes[(mesh, name)].superclass == M_NODE
    requires fam0.CoordsFit((mesh, name), coords.Length)
    modifies coords
    ensures ok <==> NoneEmpty(fam0.dirs)
    ensures ok ==> status == if mesh < 0 || mesh >= fam0.qtyMeshes then NoMesh else Ok
    ensures ok && status == Ok ==> fam0.AllCoords((mesh, name), old(coords[..]), coords[..])
  {
    hide Family.Valid, Family.Reopens, Family.Told, AllStorable, NoneEmpty, BytesOf, CoordsAre, CoordsSame, HasCoords;
    var fam;
    ok, fam := OpenFamily(bytes, fam0);
    if !ok {
      return false, NotFound;
    }
    status := fam.LoadNodes(mesh, name, Coords(coords));
  }

  // A family that cannot be opened again: after its first file is closed, a class is defined
  // once more without its long name. The file begun for the entry stays empty.
  method EmptyFileRun(superclass: nat, name: Name, longName: Name, dim: int) returns (fam: Family)
    requires superclass < 16 && name != [] && longName != [] && (dim == 2 || dim == 3)
    ensures fresh(fam) && fam.Valid() && fam.Reopens() && fam.cur == None && !NoneEmpty(fam.dirs)
  {
    hide Family.Valid, Family.Reopens, Family.Told, Family.LastIs, Grows;
    fam := new Family();
    var status, mesh := fam.MakeMesh([], dim);
    status := fam.DefClass(mesh, superclass, name, longName);
    assert fam.Reopens();
    Closing(fam);
    status := fam.DefClass(mesh, superclass, name, []);
    var n := |fam.dirs| - 1;
    Closing(fam);
    assert fam.dirs[n].entries == [];
  }

  // The open file is closed.
  method Closing(fam: Family)
    requires fam.Valid() && fam.Reopens()
    modifies fam`files, fam`dirs, fam`cur, fam`commits
    ensures fam.Valid() && fam.Reopens() && fam.cur == None && SameEntries(old(fam.dirs), fam.dirs)
  {
    hide Family.Valid, Family.Told;
    fam.CloseFile();
  }
}
