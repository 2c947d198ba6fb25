/**
 What the directories and files of a family say about its meshes: read entry by entry, as it is
 done when a family is opened again.
 */
module MeshReplay {
  import opened Wrappers
  import opened Numerals
  import opened MeshRanges
  import opened Directory
  import opened MeshRecords
  import opened MeshFiles
  import opened MeshUpdate

  datatype ReplayError = ShortRead | MissingName | MissingMesh | MissingClass | Overlap | Outside

  datatype Replayed<+T> = Read(value: T) | Stopped(error: ReplayError)

  // The type of the meshes, their dimensions, their names, and their classes.
  datatype Meshes = Meshes(meshType: int, dimensions: int, names: seq<Name>, classes: Classes)

  const CLASS_DEF := 7
  const M_STRING := 1
  const M_INT := 5

  // The characters of a string.
  function Chars(s: string): Name {
    seq(|s|, i requires 0 <= i < |s| => s[i] as int)
  }

  // The parameter that holds the name of mesh k.
  function MeshParam(k: nat): Name {
    Chars("mesh name ") + Decimal(k)
  }

  // ----- words and bytes -----

  function WordBytes(words: seq<int>): (b: seq<int>)
    ensures |b| == 4 * |words|
  {
    if words == [] then [] else WordBytes(words[..|words| - 1]) + Bytes(words[|words| - 1], 4)
  }

  // The C string at the beginning of some bytes.
  function TextOf(b: seq<int>): Name {
    if b == [] || b[0] == 0 then [] else [b[0]] + TextOf(b[1..])
  }

  predicate AreBytes(b: seq<int>) {
    forall i | 0 <= i < |b| :: 0 <= b[i] < 256
  }

  lemma {:induction false} BytesBack(b: seq<int>)
    requires AreBytes(b)
    ensures Bytes(Unsigned(b), |b|) == b && 0 <= Unsigned(b) < Scale(|b|)
    decreases |b|
  {
    if b != [] {
      BytesBack(b[1..]);
      LowByte(b[0], Unsigned(b[1..]));
      assert b == [b[0]] + b[1..];
    }
  }

  lemma LowByte(b: int, u: int)
    requires 0 <= b < 256
    ensures (b + 256 * u) % 256 == b && (b + 256 * u) / 256 == u
  {
  }

  // The sign does not matter to the bytes.
  lemma {:induction false} BytesAround(x: int, n: nat)
    ensures Bytes(x - Scale(n), n) == Bytes(x, n)
    decreases n
  {
    if n > 0 {
      var s := Scale(n - 1);
      assert (x - 256 * s) % 256 == x % 256 && (x - 256 * s) / 256 == x / 256 - s;
      BytesAround(x / 256, n - 1);
    }
  }

  lemma NumberBack(b: seq<int>)
    requires AreBytes(b)
    ensures Bytes(Number(b), |b|) == b
  {
    hide Bytes, Scale, Unsigned;
    BytesBack(b);
    BytesAround(Unsigned(b), |b|);
  }

  // Bytes come back from the words they make.
  lemma {:induction false} BytesOfWords(b: seq<int>)
    requires AreBytes(b) && |b| % 4 == 0
    ensures WordBytes(FileWords(b)) == b
    decreases |b|
  {
    hide FileWords, Number, Bytes;
    if b != [] {
      var n := |b| - 4;
      BytesOfWords(b[..n]);
      NumberBack(b[n..]);
      WordsLess(b);
      hide WordBytes;
      BytesMore(FileWords(b[..n]), Number(b[n..]));
      assert b == b[..n] + b[n..];
    } else {
      NothingToWrite();
    }
  }

  lemma NothingToWrite()
    ensures WordBytes(FileWords([])) == []
  {
  }

  lemma BytesMore(words: seq<int>, x: int)
    ensures WordBytes(words + [x]) == WordBytes(words) + Bytes(x, 4)
  {
    hide Bytes;
    assert (words + [x])[..|words|] == words;
  }

  lemma WordsLess(b: seq<int>)
    requires |b| % 4 == 0 && b != []
    ensures FileWords(b) == FileWords(b[..|b| - 4]) + [Number(b[|b| - 4..])]
  {
    hide Number;
    var n := |b| - 4;
    forall i | 0 <= i < n / 4
      ensures b[..n][4 * i..4 * i + 4] == b[4 * i..4 * i + 4]
    {
    }
    assert b[4 * (n / 4)..4 * (n / 4) + 4] == b[n..];
  }

  lemma {:induction false} TextBefore(s: Name, zeros: seq<int>)
    requires (forall i | 0 <= i < |s| :: 0 < s[i]) && zeros != [] && zeros[0] == 0
    ensures TextOf(s + zeros) == s
    decreases |s|
  {
    if s == [] {
      assert s + zeros == zeros;
    } else {
      assert (s + zeros)[1..] == s[1..] + zeros;
      TextBefore(s[1..], zeros);
    }
  }

  // ----- reading one entry -----

  // add_geom
  function AddGeom(m: Meshes, mesh: int, name: Name, start: int, stop: int): Replayed<Meshes> {
    var c := (mesh, name);
    if !(0 <= mesh < |m.names|) then Stopped(MissingMesh)
    else if c !in m.classes then Stopped(MissingClass)
    else
      var (status, rs) := Insert(m.classes[c].ranges, start, stop);
      if status.Overlapped? then Stopped(Overlap)
      else Read(m.(classes := m.classes[c := m.classes[c].(ranges := rs)]))
  }

  // n blocks of ids, from p on in the file.
  function AddBlocks(m: Meshes, mesh: int, name: Name, file: seq<int>, p: nat, n: nat): Replayed<Meshes>
    requires p + 2 * n <= |file|
    decreases n
  {
    if n == 0 then Read(m)
    else
      var r := AddGeom(m, mesh, name, file[p], file[p + 1]);
      if r.Stopped? then r else AddBlocks(r.value, mesh, name, file, p + 2, n - 1)
  }

  function ReadNodes(m: Meshes, file: seq<int>, e: Entry, name: Name): Replayed<Meshes> {
    var o := e.offset / 4;
    if o < 0 || o + 2 > |file| then Stopped(ShortRead) else AddGeom(m, e.modifier1, name, file[o], file[o + 1])
  }

  function ReadElements(m: Meshes, file: seq<int>, e: Entry, name: Name): Replayed<Meshes> {
    var o := e.offset / 4;
    if o < 0 || o + 2 > |file| || file[o + 1] < 0 || o + 2 + 2 * file[o + 1] > |file| then Stopped(ShortRead)
    else AddBlocks(m, e.modifier1, name, file, o + 2, file[o + 1])
  }

  // The name of the next mesh, in n words from o on.
  function ReadText(m: Meshes, file: seq<int>, o: int, n: int): Replayed<Meshes> {
    if o < 0 || n < 0 || o + n > |file| then Stopped(ShortRead)
    else Read(m.(names := m.names + [TextOf(WordBytes(file[o..o + n]))]))
  }

  // The parameters that describe the meshes; others say nothing about them.
  function ReadParam(m: Meshes, file: seq<int>, e: Entry, name: Name): Replayed<Meshes> {
    var o, n := e.offset / 4, e.length / 4;
    if e.modifier1 == M_STRING && name == MeshParam(|m.names|) then ReadText(m, file, o, n)
    else if e.modifier1 == M_INT && (name == Chars("mesh type") || name == Chars("mesh dimensions")) then
      if o < 0 || n < 1 || o + n > |file| then Stopped(ShortRead)
      else Read(if name == Chars("mesh type") then m.(meshType := file[o]) else m.(dimensions := file[o]))
    else Read(m)
  }

  // The first definition of a class counts.
  function ReadClass(m: Meshes, e: Entry, name: Name): Replayed<Meshes> {
    var c := (e.modifier1, name);
    if !(0 <= e.modifier1 < |m.names|) then Stopped(MissingMesh)
    else if e.modifier2 < 0 then Stopped(Outside)
    else if c in m.classes then Read(m)
    else Read(m.(classes := m.classes[c := Class(e.modifier2, [])]))
  }

  predicate Describes(kind: int) {
    IsData(kind) || kind == MILI_PARAM || kind == CLASS_DEF
  }

  function ReadEntry(m: Meshes, file: seq<int>, d: Dir, j: nat): Replayed<Meshes>
    requires j < |d.entries|
  {
    var e := d.entries[j];
    var name := NameOf(d, j);
    if !Describes(e.kind) then Read(m)
    else if !(0 <= NameIndex(d, j) < |d.names|) then Stopped(MissingName)
    else if e.kind == NODES then ReadNodes(m, file, e, name)
    else if e.kind == ELEM_CONNS then ReadElements(m, file, e, name)
    else if e.kind == MILI_PARAM then ReadParam(m, file, e, name)
    else ReadClass(m, e, name)
  }

  // ----- reading all of them -----

  predicate Before(files: seq<seq<int>>, dirs: seq<Dir>, f: nat, j: nat) {
    |dirs| == |files| && f <= |files| && if f < |files| then j <= |dirs[f].entries| else j == 0
  }

  // The entries before entry j of file f.
  function ReplayTo(files: seq<seq<int>>, dirs: seq<Dir>, f: nat, j: nat): Replayed<Meshes>
    requires Before(files, dirs, f, j)
    decreases f, j
  {
    if j > 0 then
      var r := ReplayTo(files, dirs, f, j - 1);
      if r.Stopped? then r else ReadEntry(r.value, files[f], dirs[f], j - 1)
    else if f > 0 then ReplayTo(files, dirs, f - 1, |dirs[f - 1].entries|)
    else Read(Meshes(0, 0, [], map[]))
  }

  function Replay(files: seq<seq<int>>, dirs: seq<Dir>): Replayed<Meshes>
    requires |dirs| == |files|
  {
    ReplayTo(files, dirs, |files|, 0)
  }

  // What the numbers and names of the entries stand for: 0 and 1 are records of nodes and of elements,
  // 7 a class, and 5 a parameter, with 1 for a string and 5 for a number.
  lemma EntriesMean(m: Meshes, file: seq<int>, d: Dir, j: nat)
    requires j < |d.entries| && 0 <= NameIndex(d, j) < |d.names|
    ensures
      var (e, name, r) := (d.entries[j], NameOf(d, j), ReadEntry(m, file, d, j));
      var (c, o, n) := ((e.modifier1, name), e.offset / 4, e.length / 4);
      && (e.kind == 7 && 0 <= e.modifier1 < |m.names| && e.modifier2 >= 0 && c !in m.classes ==>
            r == Read(m.(classes := m.classes[c := Class(e.modifier2, [])])))
      && (e.kind == 5 && e.modifier1 == 1 && name == Chars("mesh name ") + Decimal(|m.names|) && 0 <= o <= o + n <= |file| ==>
            r == Read(m.(names := m.names + [TextOf(WordBytes(file[o..o + n]))])))
      && (e.kind == 5 && e.modifier1 == 5 && name == Chars("mesh type") && 0 <= o && 1 <= n && o + n <= |file| ==>
            r == Read(m.(meshType := file[o])))
      && (e.kind == 5 && e.modifier1 == 5 && name == Chars("mesh dimensions") && 0 <= o && 1 <= n && o + n <= |file| ==>
            r == Read(m.(dimensions := file[o])))
      && (e.kind == 0 && 0 <= o && o + 2 <= |file| ==> r == AddGeom(m, e.modifier1, name, file[o], file[o + 1]))
      && (e.kind !in {0, 1, 5, 7} ==> r == Read(m))
  {
    hide AddGeom, AddBlocks, TextOf, WordBytes, Decimal, NameOf, NameIndex, Chars;
    NamesDiffer();
  }

  lemma NamesDiffer()
    ensures Chars("mesh type") != Chars("mesh dimensions")
  {
    assert |Chars("mesh type")| != |Chars("mesh dimensions")|;
  }

  // ----- what the blocks of a record do to its class -----

  // Block k of those from p on.
  predicate InBlock(file: seq<int>, p: nat, k: nat, id: int)
    requires p + 2 * k + 2 <= |file|
  {
    file[p + 2 * k] <= id <= file[p + 2 * k + 1]
  }

  ghost predicate InBlocks(file: seq<int>, p: nat, n: nat, id: int)
    requires p + 2 * n <= |file|
  {
    exists k: nat :: k < n && InBlock(file, p, k, id)
  }

  ghost predicate Upward(file: seq<int>, p: nat, n: nat)
    requires p + 2 * n <= |file|
  {
    forall k: nat | k < n :: file[p + 2 * k] <= file[p + 2 * k + 1]
  }

  // A block meets an id of the class, or a block before it.
  ghost predicate Clash(rs: seq<Range>, file: seq<int>, p: nat, n: nat)
    requires p + 2 * n <= |file|
  {
    exists k: nat, id :: k < n && InBlock(file, p, k, id) && (Has(rs, id) || InBlocks(file, p, k, id))
  }

  // The same meshes, but for the ranges of one class.
  predicate OnlyRanges(m: Meshes, c: (int, Name), m': Meshes)
    requires c in m.classes
  {
    && m'.meshType == m.meshType && m'.dimensions == m.dimensions && m'.names == m.names
    && c in m'.classes && m'.classes == m.classes[c := Class(m.classes[c].superclass, m'.classes[c].ranges)]
  }

  // The blocks are entered one and all, unless one of them meets what is there: that ends it.
  lemma {:induction false} BlocksAdded(m: Meshes, mesh: int, name: Name, file: seq<int>, p: nat, n: nat)
    requires 0 <= mesh < |m.names| && (mesh, name) in m.classes && Canonical(m.classes[(mesh, name)].ranges)
    requires p + 2 * n <= |file| && Upward(file, p, n)
    ensures
      var (c, r) := ((mesh, name), AddBlocks(m, mesh, name, file, p, n));
      if Clash(m.classes[c].ranges, file, p, n) then r == Stopped(Overlap)
      else
        && r.Read? && OnlyRanges(m, c, r.value) && Canonical(r.value.classes[c].ranges)
        && forall id :: Has(r.value.classes[c].ranges, id) <==> Has(m.classes[c].ranges, id) || InBlocks(file, p, n, id)
    decreases n
  {
    hide Insert, Canonical, Has, InBlock, InBlocks, Clash, Upward, OnlyRanges;
    var c := (mesh, name);
    var rs := m.classes[c].ranges;
    if n == 0 {
      NoBlocks(rs, file, p);
      OnlyRangesSelf(m, c);
    } else {
      FirstUpward(file, p, n);
      InsertIs(rs, file[p], file[p + 1]);
      var (status, rs') := Insert(rs, file[p], file[p + 1]);
      FirstClash(rs, rs', file, p, n);
      if !status.Overlapped? {
        var m' := m.(classes := m.classes[c := m.classes[c].(ranges := rs')]);
        OnlyRangesOne(m, c, rs');
        BlocksAdded(m', mesh, name, file, p + 2, n - 1);
        forall id
          ensures InBlocks(file, p, n, id) <==> file[p] <= id <= file[p + 1] || InBlocks(file, p + 2, n - 1, id)
        {
          FirstBlock(file, p, n, id);
        }
        OnlyRangesThrough(m, c, m', AddBlocks(m', mesh, name, file, p + 2, n - 1));
      }
    }
  }

  lemma NoBlocks(rs: seq<Range>, file: seq<int>, p: nat)
    requires p <= |file|
    ensures !Clash(rs, file, p, 0) && forall id :: !InBlocks(file, p, 0, id)
  {
  }

  lemma OnlyRangesSelf(m: Meshes, c: (int, Name))
    requires c in m.classes
    ensures OnlyRanges(m, c, m)
  {
  }

  lemma OnlyRangesOne(m: Meshes, c: (int, Name), rs: seq<Range>)
    requires c in m.classes
    ensures OnlyRanges(m, c, m.(classes := m.classes[c := m.classes[c].(ranges := rs)]))
  {
  }

  lemma OnlyRangesThrough(m: Meshes, c: (int, Name), m1: Meshes, r: Replayed<Meshes>)
    requires c in m.classes && OnlyRanges(m, c, m1)
    ensures r.Read? && OnlyRanges(m1, c, r.value) ==> OnlyRanges(m, c, r.value)
  {
  }

  lemma FirstUpward(file: seq<int>, p: nat, n: nat)
    requires 0 < n && p + 2 * n <= |file| && Upward(file, p, n)
    ensures file[p] <= file[p + 1] && Upward(file, p + 2, n - 1)
  {
    assert file[p + 2 * 0] <= file[p + 2 * 0 + 1];
    forall k: nat | k < n - 1
      ensures file[p + 2 + 2 * k] <= file[p + 2 + 2 * k + 1]
    {
      assert file[p + 2 * (k + 1)] <= file[p + 2 * (k + 1) + 1];
    }
  }

  lemma FirstBlock(file: seq<int>, p: nat, n: nat, id: int)
    requires 0 < n && p + 2 * n <= |file|
    ensures InBlocks(file, p, n, id) <==> file[p] <= id <= file[p + 1] || InBlocks(file, p + 2, n - 1, id)
  {
    if file[p] <= id <= file[p + 1] {
      assert InBlock(file, p, 0, id);
    }
    if InBlocks(file, p + 2, n - 1, id) {
      var k: nat :| k < n - 1 && InBlock(file, p + 2, k, id);
      assert InBlock(file, p, k + 1, id);
    }
    if InBlocks(file, p, n, id) {
      var k: nat :| k < n && InBlock(file, p, k, id);
      assert k > 0 ==> InBlock(file, p + 2, k - 1, id);
    }
  }

  // A clash is one of the first block, or one of the others once that is entered.
  lemma FirstClash(rs: seq<Range>, rs': seq<Range>, file: seq<int>, p: nat, n: nat)
    requires 0 < n && p + 2 * n <= |file|
    ensures Meets(rs, file[p], file[p + 1]) ==> Clash(rs, file, p, n)
    ensures !Meets(rs, file[p], file[p + 1]) && IsUnion(rs, file[p], file[p + 1], rs')
      ==> (Clash(rs, file, p, n) <==> Clash(rs', file, p + 2, n - 1))
  {
    if Meets(rs, file[p], file[p + 1]) {
      var id :| Has(rs, id) && file[p] <= id <= file[p + 1];
      assert InBlock(file, p, 0, id);
    } else if IsUnion(rs, file[p], file[p + 1], rs') {
      if Clash(rs', file, p + 2, n - 1) {
        hide Has, InBlocks;
        var k: nat, id :| k < n - 1 && InBlock(file, p + 2, k, id) && (Has(rs', id) || InBlocks(file, p + 2, k, id));
        FirstBlock(file, p, k + 1, id);
        assert InBlock(file, p, k + 1, id) && (Has(rs, id) || InBlocks(file, p, k + 1, id));
      }
      if Clash(rs, file, p, n) {
        hide Has, InBlocks;
        var k: nat, id :| k < n && InBlock(file, p, k, id) && (Has(rs, id) || InBlocks(file, p, k, id));
        FirstNone(file, p, id);
        assert k > 0;
        FirstBlock(file, p, k, id);
        assert InBlock(file, p + 2, k - 1, id) && (Has(rs', id) || InBlocks(file, p + 2, k - 1, id));
      }
    }
  }

  lemma FirstNone(file: seq<int>, p: nat, id: int)
    requires p <= |file|
    ensures !InBlocks(file, p, 0, id)
  {
  }

  // An element record: its second word is the number of its blocks, which stand after it.
  lemma RecordAdded(m: Meshes, file: seq<int>, d: Dir, j: nat)
    requires j < |d.entries| && d.entries[j].kind == 1 && 0 <= NameIndex(d, j) < |d.names|
    requires 0 <= d.entries[j].modifier1 < |m.names| && (d.entries[j].modifier1, NameOf(d, j)) in m.classes
    requires Canonical(m.classes[(d.entries[j].modifier1, NameOf(d, j))].ranges)
    requires
      var o := d.entries[j].offset / 4;
      0 <= o && o + 2 <= |file| && 0 <= file[o + 1] && o + 2 + 2 * file[o + 1] <= |file| && Upward(file, o + 2, file[o + 1])
    ensures
      var (c, r, o) := ((d.entries[j].modifier1, NameOf(d, j)), ReadEntry(m, file, d, j), d.entries[j].offset / 4);
      if Clash(m.classes[c].ranges, file, o + 2, file[o + 1]) then r == Stopped(Overlap)
      else
        && r.Read? && OnlyRanges(m, c, r.value)
        && forall id :: Has(r.value.classes[c].ranges, id) <==>
                        Has(m.classes[c].ranges, id) || InBlocks(file, o + 2, file[o + 1], id)
  {
    hide Canonical, Has, InBlocks, Clash, Upward, AddBlocks, OnlyRanges, NameOf, NameIndex;
    var (e, o) := (d.entries[j], d.entries[j].offset / 4);
    BlocksAdded(m, e.modifier1, NameOf(d, j), file, o + 2, file[o + 1]);
  }

  lemma NoRanges()
    ensures Canonical([]) && forall id :: !Has([], id)
  {
  }

  // Blocks 1 to 2 and 5 to 6 in an empty class: ids 1, 2, 5 and 6; blocks 1 to 2 and 2 to 3 clash.
  lemma TwoBlocks(m: Meshes, name: Name)
    requires |m.names| > 0 && (0, name) in m.classes && m.classes[(0, name)].ranges == []
    ensures
      var r := AddBlocks(m, 0, name, [9, 2, 1, 2, 5, 6], 2, 2);
      r.Read? && forall id :: Has(r.value.classes[(0, name)].ranges, id) <==> id in {1, 2, 5, 6}
    ensures AddBlocks(m, 0, name, [9, 2, 1, 2, 2, 3], 2, 2) == Stopped(Overlap)
  {
    var file, file' := [9, 2, 1, 2, 5, 6], [9, 2, 1, 2, 2, 3];
    NoRanges();
    hide AddBlocks, Has, Canonical, OnlyRanges;
    BlocksAdded(m, 0, name, file, 2, 2);
    BlocksAdded(m, 0, name, file', 2, 2);
    assert InBlock(file', 2, 1, 2) && InBlock(file', 2, 0, 2);
    forall id
      ensures InBlocks(file, 2, 2, id) <==> id in {1, 2, 5, 6}
    {
      FirstBlock(file, 2, 2, id);
      FirstBlock(file, 4, 1, id);
      FirstNone(file, 6, id);
    }
    forall k: nat, id | k < 2 && InBlock(file, 2, k, id)
      ensures !InBlocks(file, 2, k, id)
    {
      FirstNone(file, 2, id);
      if k == 1 {
        FirstBlock(file, 2, 1, id);
        FirstNone(file, 4, id);
      }
    }
  }

  // ----- what is read stays the same -----

  lemma {:induction false} BlocksSame(m: Meshes, mesh: int, name: Name, file: seq<int>, file': seq<int>, p: nat, n: nat)
    requires p + 2 * n <= |file| && p + 2 * n <= |file'| && forall k | p <= k < p + 2 * n :: file'[k] == file[k]
    ensures AddBlocks(m, mesh, name, file', p, n) == AddBlocks(m, mesh, name, file, p, n)
    decreases n
  {
    hide AddGeom;
    if n > 0 {
      var r := AddGeom(m, mesh, name, file[p], file[p + 1]);
      if r.Read? {
        BlocksSame(r.value, mesh, name, file, file', p + 2, n - 1);
      }
    }
  }

  // The words that reading an entry looks at.
  predicate Looks(file: seq<int>, e: Entry, k: int) {
    var o := e.offset / 4;
    if e.kind == NODES then o <= k < o + 2
    else if e.kind == ELEM_CONNS then o <= k < o + 2 || (0 <= o && o + 1 < |file| && o <= k < o + 2 + 2 * file[o + 1])
    else e.kind == MILI_PARAM && o <= k < o + e.length / 4
  }

  lemma SameSeen(file: seq<int>, file': seq<int>, a: nat, b: nat)
    requires a <= b <= |file| && b <= |file'| && forall k | a <= k < b :: file'[k] == file[k]
    ensures file'[a..b] == file[a..b]
  {
  }

  // The same words seen, and the same name: the same reading.
  lemma ReadSame(m: Meshes, file: seq<int>, file': seq<int>, d: Dir, d': Dir, j: nat)
    requires j < |d.entries| && j < |d'.entries| && d'.entries[j] == d.entries[j] && |file| <= |file'|
    requires Describes(d.entries[j].kind) && 0 <= NameIndex(d, j) < |d.names| ==>
      NameIndex(d', j) == NameIndex(d, j) < |d'.names| && NameOf(d', j) == NameOf(d, j)
    requires forall k | 0 <= k < |file| && Looks(file, d.entries[j], k) :: file'[k] == file[k]
    requires ReadEntry(m, file, d, j).Read?
    ensures ReadEntry(m, file', d', j) == ReadEntry(m, file, d, j)
  {
    hide AddGeom, AddBlocks, NameOf, NameIndex, MeshParam, Chars, TextOf, WordBytes;
    var e := d.entries[j];
    var o := e.offset / 4;
    if e.kind == NODES {
      assert Looks(file, e, o) && Looks(file, e, o + 1);
    } else if e.kind == ELEM_CONNS {
      assert Looks(file, e, o) && Looks(file, e, o + 1);
      assert forall k | o + 2 <= k < o + 2 + 2 * file[o + 1] :: Looks(file, e, k);
      BlocksSame(m, e.modifier1, NameOf(d, j), file, file', o + 2, file[o + 1]);
    } else if e.kind == MILI_PARAM {
      ParamSame(m, file, file', e, NameOf(d, j));
    }
  }

  lemma ParamSame(m: Meshes, file: seq<int>, file': seq<int>, e: Entry, name: Name)
    requires e.kind == MILI_PARAM && |file| <= |file'| && ReadParam(m, file, e, name).Read?
    requires forall k | 0 <= k < |file| && Looks(file, e, k) :: file'[k] == file[k]
    ensures ReadParam(m, file', e, name) == ReadParam(m, file, e, name)
  {
    hide MeshParam, Chars, TextOf, WordBytes;
    var o, n := e.offset / 4, e.length / 4;
    if o >= 0 && n >= 0 && o + n <= |file| {
      forall k | o <= k < o + n
        ensures file'[k] == file[k]
      {
        assert Looks(file, e, k);
      }
      SameSeen(file, file', o, o + n);
    }
  }

  lemma {:induction false} ReplayGrown(files: seq<seq<int>>, dirs: seq<Dir>, files': seq<seq<int>>, dirs': seq<Dir>, f: nat, j: nat)
    requires Grows(files, dirs, files', dirs') && Before(files, dirs, f, j) && Before(files', dirs', f, j)
    requires forall g | 0 <= g < f :: dirs'[g].entries == dirs[g].entries
    requires ReplayTo(files, dirs, f, j).Read?
    ensures ReplayTo(files', dirs', f, j) == ReplayTo(files, dirs, f, j)
    decreases f, j
  {
    hide ReadEntry;
    if j > 0 {
      ReplayGrown(files, dirs, files', dirs', f, j - 1);
      EntryGrown(ReplayTo(files, dirs, f, j - 1).value, files[f], dirs[f], files'[f], dirs'[f], j - 1);
    } else if f > 0 {
      ReplayGrown(files, dirs, files', dirs', f - 1, |dirs[f - 1].entries|);
    }
  }

  lemma EntryGrown(m: Meshes, file: seq<int>, d: Dir, file': seq<int>, d': Dir, j: nat)
    requires j < |d.entries| && file <= file' && DirExtends(d, d') && ReadEntry(m, file, d, j).Read?
    ensures ReadEntry(m, file', d', j) == ReadEntry(m, file, d, j)
  {
    if 0 <= NameIndex(d, j) < |d.names| {
      SameName(d, d', j);
    }
    hide ReadEntry, NameIndex, NameOf, Looks;
    ReadSame(m, file, file', d, d', j);
  }

  // Files grow, and new ones are begun, without new entries.
  lemma {:induction false} ReplayKept(files: seq<seq<int>>, dirs: seq<Dir>, files': seq<seq<int>>, dirs': seq<Dir>, n: nat)
    requires Grows(files, dirs, files', dirs') && Replay(files, dirs).Read? && |files| <= n <= |files'|
    requires forall g | 0 <= g < |files'| :: dirs'[g].entries == if g < |files| then dirs[g].entries else []
    ensures ReplayTo(files', dirs', n, 0) == Replay(files, dirs)
    decreases n
  {
    hide ReadEntry;
    if n == |files| {
      ReplayGrown(files, dirs, files', dirs', n, 0);
    } else {
      ReplayKept(files, dirs, files', dirs', n - 1);
    }
  }

  // The last file gets one more entry.
  lemma ReplayAdded(files: seq<seq<int>>, dirs: seq<Dir>, files': seq<seq<int>>, dirs': seq<Dir>)
    requires Grows(files, dirs, files', dirs') && Replay(files, dirs).Read? && files != [] && |files'| == |files|
    requires forall g | 0 <= g < |files| - 1 :: dirs'[g].entries == dirs[g].entries
    requires |dirs'[|files| - 1].entries| == |dirs[|files| - 1].entries| + 1
    ensures
      var n, j := |files| - 1, |dirs[|files| - 1].entries|;
      Replay(files', dirs') == ReadEntry(Replay(files, dirs).value, files'[n], dirs'[n], j)
  {
    hide ReadEntry;
    var n, j := |files| - 1, |dirs[|files| - 1].entries|;
    assert Replay(files, dirs) == ReplayTo(files, dirs, n, j);
    ReplayGrown(files, dirs, files', dirs', n, j);
    assert Replay(files', dirs') == ReplayTo(files', dirs', n, j + 1);
  }

  // Files that read the same at every entry.
  lemma {:induction false} ReplayAlike(files: seq<seq<int>>, files': seq<seq<int>>, dirs: seq<Dir>, f: nat, j: nat)
    requires |files'| == |files| == |dirs| && Before(files, dirs, f, j) && ReplayTo(files, dirs, f, j).Read?
    requires forall m, g: nat, h: nat | g < |files| && h < |dirs[g].entries| && ReadEntry(m, files[g], dirs[g], h).Read? ::
      ReadEntry(m, files'[g], dirs[g], h) == ReadEntry(m, files[g], dirs[g], h)
    ensures ReplayTo(files', dirs, f, j) == ReplayTo(files, dirs, f, j)
    decreases f, j
  {
    hide ReadEntry;
    if j > 0 {
      ReplayAlike(files, files', dirs, f, j - 1);
    } else if f > 0 {
      ReplayAlike(files, files', dirs, f - 1, |dirs[f - 1].entries|);
    }
  }

  // ----- what an entry reads -----

  lemma NewNameIs(d: Dir, e: Entry, names: seq<Name>)
    requires TotalStrings(d.entries) == |d.names| && names != []
    ensures
      var d' := Dir(d.entries + [e], d.names + names, d.commits);
      NameIndex(d', |d.entries|) == |d.names| && NameOf(d', |d.entries|) == names[0]
  {
    assert (d.entries + [e])[..|d.entries|] == d.entries;
  }

  // A good entry for objects gives the ids of its record.
  lemma GoodRead(m: Meshes, file: seq<int>, d: Dir, j: nat, classes: Classes, dimensions: nat, objs: Objects)
    requires j < |d.entries| && EntryGood(file, d, j, classes, dimensions, objs) && IsData(d.entries[j].kind)
    ensures
      var e := d.entries[j];
      ReadEntry(m, file, d, j)
      == AddGeom(m, e.modifier1, NameOf(d, j), StartAt(file, e), StartAt(file, e) + e.modifier2 - 1)
  {
    var e := d.entries[j];
    var name := NameOf(d, j);
    var c := (e.modifier1, name);
    var w := WordsOf(e, name, classes, dimensions);
    assert RecordGood(file, e, name, classes[c].superclass, w, StartAt(file, e), objs);
    HeadIs(file, e, name, classes[c].superclass, w, StartAt(file, e), objs);
    hide NameOf, NameIndex, RecordGood, StartAt, AddGeom;
    if e.kind == ELEM_CONNS {
      OneBlock(m, e.modifier1, name, file, e.offset / 4 + 2);
    }
  }

  lemma OneBlock(m: Meshes, mesh: int, name: Name, file: seq<int>, p: nat)
    requires p + 2 <= |file|
    ensures AddBlocks(m, mesh, name, file, p, 1) == AddGeom(m, mesh, name, file[p], file[p + 1])
  {
    hide AddGeom;
    var r := AddGeom(m, mesh, name, file[p], file[p + 1]);
    if r.Read? {
      assert AddBlocks(r.value, mesh, name, file, p + 2, 0) == r;
    }
  }

  // The entry for the name of the next mesh.
  lemma NameRead(m: Meshes, file: seq<int>, d: Dir, j: nat, words: seq<int>, name: Name)
    requires j < |d.entries| && 0 <= NameIndex(d, j) < |d.names| && NameOf(d, j) == MeshParam(|m.names|)
    requires |words| <= |file| && file[|file| - |words|..] == words && TextOf(WordBytes(words)) == name
    requires
      var e := d.entries[j];
      && e.kind == MILI_PARAM && e.modifier1 == M_STRING && e.length == 4 * |words|
      && (words != [] ==> e.offset == 4 * (|file| - |words|))
    requires words != []
    ensures ReadEntry(m, file, d, j) == Read(m.(names := m.names + [name]))
  {
    ParamRead(m, file, d, j);
    hide *;
    TextRead(m, file, d.entries[j], words, name);
  }

  lemma ParamRead(m: Meshes, file: seq<int>, d: Dir, j: nat)
    requires j < |d.entries| && 0 <= NameIndex(d, j) < |d.names| && d.entries[j].kind == MILI_PARAM
    ensures ReadEntry(m, file, d, j) == ReadParam(m, file, d.entries[j], NameOf(d, j))
  {
    hide NameOf, NameIndex, ReadParam, ReadNodes, ReadElements, ReadClass;
  }

  lemma LastText(m: Meshes, file: seq<int>, words: seq<int>)
    requires |words| <= |file| && file[|file| - |words|..] == words
    ensures ReadText(m, file, |file| - |words|, |words|) == Read(m.(names := m.names + [TextOf(WordBytes(words))]))
  {
    hide TextOf, WordBytes;
    assert file[|file| - |words|..|file| - |words| + |words|] == words;
  }

  lemma TextRead(m: Meshes, file: seq<int>, e: Entry, words: seq<int>, name: Name)
    requires 0 < |words| <= |file| && file[|file| - |words|..] == words && TextOf(WordBytes(words)) == name
    requires e.modifier1 == M_STRING && e.length == 4 * |words| && e.offset == 4 * (|file| - |words|)
    ensures ReadParam(m, file, e, MeshParam(|m.names|)) == Read(m.(names := m.names + [name]))
  {
    hide MeshParam, Chars, ReadText;
    assert e.offset / 4 == |file| - |words| && e.length / 4 == |words|;
    LastText(m, file, words);
  }

  // The words of a header.
  lemma HeadIs(file: seq<int>, e: Entry, name: Name, superclass: nat, w: nat, start: int, objs: Objects)
    requires RecordGood(file, e, name, superclass, w, start, objs)
    ensures
      var o := e.offset / 4;
      && 0 <= o && o + HeadLength(e.kind) <= |file|
      && (e.kind == NODES ==> file[o] == start && file[o + 1] == start + e.modifier2 - 1)
      && (e.kind != NODES ==> file[o + 1] == 1 && file[o + 2] == start && file[o + 3] == start + e.modifier2 - 1)
  {
    var o := e.offset / 4;
    var h := file[o..o + HeadLength(e.kind)];
    assert h == Header(e.kind, superclass, start, start + e.modifier2 - 1);
    assert forall k | 0 <= k < |h| :: h[k] == file[o + k];
    if e.kind == NODES {
      assert h[0] == file[o] && h[1] == file[o + 1];
    } else {
      assert h[1] == file[o + 1] && h[2] == file[o + 2] && h[3] == file[o + 3];
    }
  }

  // The range of a new record is joined to those of its class, as it was when it was defined.
  lemma GeomAdded(m: Meshes, mesh: int, name: Name, start: int, stop: int, rs: seq<Range>)
    requires 0 <= mesh < |m.names| && (mesh, name) in m.classes && start <= stop
    requires
      var rs0 := m.classes[(mesh, name)].ranges;
      Canonical(rs0) && !Meets(rs0, start, stop) && IsUnion(rs0, start, stop, rs)
    ensures AddGeom(m, mesh, name, start, stop)
      == Read(m.(classes := m.classes[(mesh, name) := m.classes[(mesh, name)].(ranges := rs)]))
  {
    var rs0 := m.classes[(mesh, name)].ranges;
    InsertIs(rs0, start, stop);
    hide Insert;
    CanonicalUnique(Insert(rs0, start, stop).1, rs);
  }

  // Other entries look at no word of a record that is overwritten.
  lemma UpdateReads(m: Meshes, files: seq<seq<int>>, files': seq<seq<int>>, dirs: seq<Dir>, classes: Classes, dimensions: nat,
                    objs: Objects, objs': Objects, f: nat, j: nat, x: nat, data: seq<int>, g: nat, h: nat)
    requires FilesGood(files, dirs, classes, dimensions, objs) && FilesGood(files', dirs, classes, dimensions, objs')
    requires |dirs| == |files| && f < |files| && j < |dirs[f].entries| && g < |files| && h < |dirs[g].entries|
    requires IsData(dirs[f].entries[j].kind) && x + |data| <= |files[f]| && files' == files[f := Overwrite(files[f], x, data)]
    requires
      var e := dirs[f].entries[j];
      e.length > 0 && e.offset / 4 <= x && 4 * (x + |data|) <= e.offset + e.length
    requires IsData(dirs[g].entries[h].kind) ==> StartAt(files'[g], dirs[g].entries[h]) == StartAt(files[g], dirs[g].entries[h])
    requires ReadEntry(m, files[g], dirs[g], h).Read?
    ensures ReadEntry(m, files'[g], dirs[g], h) == ReadEntry(m, files[g], dirs[g], h)
  {
    hide ReadEntry, FilesGood, EntryGood, Overwrite, StartAt;
    if g == f {
      EntryIn(files, dirs, classes, dimensions, objs, g, h);
      EntryIn(files', dirs, classes, dimensions, objs', g, h);
      if IsData(dirs[g].entries[h].kind) {
        GoodRead(m, files[g], dirs[g], h, classes, dimensions, objs);
        GoodRead(m, files'[g], dirs[g], h, classes, dimensions, objs');
      } else {
        OtherReads(m, files[f], dirs[f], j, x, data, h);
      }
    }
  }

  lemma OtherReads(m: Meshes, file: seq<int>, d: Dir, j: nat, x: nat, data: seq<int>, h: nat)
    requires Tidy(file, d) && j < |d.entries| && h < |d.entries| && h != j && !IsData(d.entries[h].kind)
    requires x + |data| <= |file| && d.entries[j].length > 0
    requires d.entries[j].offset / 4 <= x && 4 * (x + |data|) <= d.entries[j].offset + d.entries[j].length
    requires ReadEntry(m, file, d, h).Read?
    ensures ReadEntry(m, Overwrite(file, x, data), d, h) == ReadEntry(m, file, d, h)
  {
    var e := d.entries[h];
    var file' := Overwrite(file, x, data);
    hide ReadEntry, Overwrite, NameOf, NameIndex;
    forall k | 0 <= k < |file| && Looks(file, e, k)
      ensures file'[k] == file[k]
    {
      assert k < x || x + |data| <= k;
      if k < x {
        assert file'[k] == file'[..x][k] && file[k] == file[..x][k];
      } else {
        assert file'[k] == file'[x + |data|..][k - (x + |data|)];
      }
    }
    ReadSame(m, file, file', d, d, h);
  }

  // ----- the directories at the ends of the files -----

  // The file is what was written, n words, and then its directory.
  predicate EndsAt(file: seq<int>, d: Dir, n: nat) {
    n <= |file| && file[n..] == FileWords(DirectoryBytes(d.entries, d.names, d.commits)) && Tidy(file[..n], d)
  }

  // Every file that is committed ends with its directory.
  ghost predicate Sealed(files: seq<seq<int>>, dirs: seq<Dir>) {
    && |dirs| == |files|
    && forall f: nat | f < |files| && dirs[f].commits != 0 :: SealedFile(files[f], dirs[f])
  }

  ghost predicate SealedFile(file: seq<int>, d: Dir) {
    exists n: nat :: EndsAt(file, d, n)
  }

  // A file without entries is empty, and one with entries is committed, or it is the last and
  // open.
  predicate Settled(files: seq<seq<int>>, dirs: seq<Dir>, cur: Option<nat>) {
    && |dirs| == |files|
    && forall f: nat | f < |files| ::
         if dirs[f].entries == [] then files[f] == [] && dirs[f].commits == 0
         else dirs[f].commits != 0 || (cur == Some(f) && f == |files| - 1)
  }

  lemma SettledAdded(files: seq<seq<int>>, dirs: seq<Dir>, cur: Option<nat>, file: seq<int>, d: Dir)
    requires Settled(files, dirs, cur) && files != [] && cur == Some(|files| - 1) && d.entries != []
    ensures Settled(files[|files| - 1 := file], dirs[|files| - 1 := d], cur)
  {
  }

  // Something happens to the last file, which is not committed.
  lemma SealedOpen(files: seq<seq<int>>, dirs: seq<Dir>, file: seq<int>, d: Dir)
    requires Sealed(files, dirs) && files != [] && d.commits == 0
    ensures Sealed(files[|files| - 1 := file], dirs[|files| - 1 := d])
  {
    hide SealedFile;
  }

  lemma SealedNew(files: seq<seq<int>>, dirs: seq<Dir>)
    requires Sealed(files, dirs)
    ensures Sealed(files + [[]], dirs + [Dir([], [], 0)])
  {
    hide SealedFile;
  }

  // The last file is committed.
  lemma SealedLast(files: seq<seq<int>>, dirs: seq<Dir>, commits: int)
    requires Sealed(files, dirs) && files != [] && Tidy(files[|files| - 1], dirs[|files| - 1])
    ensures
      var n := |files| - 1;
      var d := dirs[n].(commits := commits);
      Sealed(files[n := files[n] + FileWords(DirectoryBytes(d.entries, d.names, commits))], dirs[n := d])
  {
    var n := |files| - 1;
    var d := dirs[n].(commits := commits);
    hide Sealed, FileWords, DirectoryBytes, Tidy;
    var words := FileWords(DirectoryBytes(d.entries, d.names, commits));
    var file := files[n] + words;
    assert file[..|files[n]|] == files[n] && file[|files[n]|..] == words;
    SameTidy(files[n], dirs[n], d);
    assert EndsAt(file, d, |files[n]|);
    SealedAt(files, dirs, n, file, d);
  }

  lemma SameTidy(file: seq<int>, d: Dir, d': Dir)
    requires Tidy(file, d) && d'.entries == d.entries
    ensures Tidy(file, d')
  {
  }

  lemma SealedAt(files: seq<seq<int>>, dirs: seq<Dir>, n: nat, file: seq<int>, d: Dir)
    requires Sealed(files, dirs) && n < |files| && (d.commits != 0 ==> SealedFile(file, d))
    ensures Sealed(files[n := file], dirs[n := d])
  {
    hide SealedFile;
  }

  // Words of a record are overwritten.
  lemma SealedUpdated(files: seq<seq<int>>, dirs: seq<Dir>, f: nat, j: nat, x: nat, data: seq<int>)
    requires Sealed(files, dirs) && f < |files| && j < |dirs[f].entries| && x + |data| <= |files[f]|
    requires dirs[f].entries[j].length > 0
    requires 4 * (x + |data|) <= dirs[f].entries[j].offset + dirs[f].entries[j].length
    ensures Sealed(files[f := Overwrite(files[f], x, data)], dirs)
  {
    var file, d := files[f], dirs[f];
    if d.commits != 0 {
      assert SealedFile(file, d);
      SealedRecord(file, d, j, x, data);
    }
    hide *;
    assert dirs[f := d] == dirs;
    SealedAt(files, dirs, f, Overwrite(file, x, data), d);
  }

  lemma SealedRecord(file: seq<int>, d: Dir, j: nat, x: nat, data: seq<int>)
    requires SealedFile(file, d) && j < |d.entries| && x + |data| <= |file| && d.entries[j].length > 0
    requires 4 * (x + |data|) <= d.entries[j].offset + d.entries[j].length
    ensures SealedFile(Overwrite(file, x, data), d)
  {
    var n: nat :| EndsAt(file, d, n);
    hide *;
    RecordInside(file, d, n, j);
    OverwrittenBefore(file, d, n, x, data);
    SealedBy(Overwrite(file, x, data), d, n);
  }

  lemma SealedBy(file: seq<int>, d: Dir, n: nat)
    requires EndsAt(file, d, n)
    ensures SealedFile(file, d)
  {
    hide EndsAt;
  }

  // Words before the directory are overwritten.
  lemma OverwrittenBefore(file: seq<int>, d: Dir, n: nat, x: nat, data: seq<int>)
    requires EndsAt(file, d, n) && x + |data| <= |file| && x + |data| <= n
    ensures EndsAt(Overwrite(file, x, data), d, n)
  {
    var file' := Overwrite(file, x, data);
    hide FileWords, DirectoryBytes, Overwrite, Tidy;
    SameSlice(file, file', x, x + |data|, n, |file|);
    assert file'[n..] == file'[n..|file|] && file[n..] == file[n..|file|];
    TidyLength(file[..n], file'[..n], d);
  }

  lemma RecordInside(file: seq<int>, d: Dir, n: nat, j: nat)
    requires EndsAt(file, d, n) && j < |d.entries| && d.entries[j].length > 0
    ensures d.entries[j].offset + d.entries[j].length <= 4 * n
  {
    hide FileWords, DirectoryBytes;
    assert Within(d.entries[j], file[..n]);
  }

  lemma TidyLength(file: seq<int>, file': seq<int>, d: Dir)
    requires Tidy(file, d) && |file'| == |file|
    ensures Tidy(file', d)
  {
  }
}
