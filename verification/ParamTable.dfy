/**
 From the files of a family to a parameter: the directories are loaded, the parameters among
 their entries are entered in a hash table, and finding a name gives the last entry of that
 name in the last of the files that has one.
 */
module ParamTable {
  import opened Wrappers
  import Hash = HashTable
  import opened Directory
  import opened DirectoryLoad

  const DEFAULT_HASH_TABLE_SIZE := 5009

  // Where a parameter is: its file, and the entry there.
  datatype ParamRef = ParamRef(file: nat, entry: nat)

  predicate Before(p: ParamRef, q: ParamRef) {
    p.file < q.file || (p.file == q.file && p.entry < q.entry)
  }

  // There is a parameter of this name in the directories: an entry of one of the three kinds that
  // goes by it.
  predicate IsAt(dirs: seq<Loaded>, name: Name, p: ParamRef) {
    && p.file < |dirs| && ParamAt(dirs[p.file].entries, p.entry)
    && LastNamed(dirs[p.file].entries, dirs[p.file].names, p.entry, name)
  }

  // The parameters of a directory are those its entries tell.
  ghost predicate Told(d: Loaded) {
    forall name, k: nat :: (name, k) in d.params <==> ParamAt(d.entries, k) && LastNamed(d.entries, d.names, k, name)
  }

  // ----- the parameters of all files, one after the other -----

  function FileRefs(params: seq<(Name, nat)>, f: nat): (rs: seq<(Name, ParamRef)>)
    ensures |rs| == |params| && forall i | 0 <= i < |rs| :: rs[i] == (params[i].0, ParamRef(f, params[i].1))
  {
    seq(|params|, i requires 0 <= i < |params| => (params[i].0, ParamRef(f, params[i].1)))
  }

  function RefsOf(dirs: seq<Loaded>): seq<(Name, ParamRef)> {
    if dirs == [] then []
    else RefsOf(dirs[..|dirs| - 1]) + FileRefs(dirs[|dirs| - 1].params, |dirs| - 1)
  }

  lemma {:induction false} RefsAre(dirs: seq<Loaded>, name: Name, p: ParamRef)
    requires forall f | 0 <= f < |dirs| :: Told(dirs[f])
    ensures (name, p) in RefsOf(dirs) <==> IsAt(dirs, name, p)
    decreases |dirs|
  {
    hide ParamAt, LastNamed, FileRefs;
    if dirs != [] {
      var n := |dirs| - 1;
      RefsAre(dirs[..n], name, p);
      InFile(dirs[n].params, n, name, p);
      assert Told(dirs[n]);
      assert p.file < n ==> dirs[..n][p.file] == dirs[p.file];
    }
  }

  lemma InFile(params: seq<(Name, nat)>, f: nat, name: Name, p: ParamRef)
    ensures (name, p) in FileRefs(params, f) <==> p.file == f && (name, p.entry) in params
  {
    if p.file == f && (name, p.entry) in params {
      var i :| 0 <= i < |params| && params[i] == (name, p.entry);
      assert FileRefs(params, f)[i] == (name, p);
    }
  }

  predicate Increasing(params: seq<(Name, nat)>) {
    forall i, j | 0 <= i < j < |params| :: params[i].1 < params[j].1
  }

  predicate InOrder(rs: seq<(Name, ParamRef)>) {
    forall i, j | 0 <= i < j < |rs| :: Before(rs[i].1, rs[j].1)
  }

  lemma {:induction false} RefsInOrder(dirs: seq<Loaded>)
    requires forall f | 0 <= f < |dirs| :: Increasing(dirs[f].params)
    ensures InOrder(RefsOf(dirs)) && forall i | 0 <= i < |RefsOf(dirs)| :: RefsOf(dirs)[i].1.file < |dirs|
    decreases |dirs|
  {
    if dirs != [] {
      var n := |dirs| - 1;
      RefsInOrder(dirs[..n]);
      assert Increasing(dirs[n].params);
    }
  }

  // The parameters of a file are found in the order of its entries.
  lemma {:induction false} TakenInOrder(es: seq<Entry>, i: nat, rest: seq<int>)
    requires i <= |es| && TakeEntries(es, i, rest).Ok?
    ensures
      var params := TakeEntries(es, i, rest).value.1;
      Increasing(params) && forall k | 0 <= k < |params| :: i <= params[k].1 < |es| && IsParam(es[params[k].1].kind)
    decreases |es| - i
  {
    hide TakeNames, IsParam;
    if i < |es| {
      TakenInOrder(es, i + 1, TakeNames(rest, es[i].stringQty).value.1);
    }
  }

  lemma LoadedInOrder(file: seq<int>)
    requires LoadDir(file).Ok?
    ensures Increasing(LoadDir(file).value.params)
  {
    hide EntriesOf, TakeEntries, Number, TotalStrings;
    var h := file[|file| - 16..];
    var namesLen, qty := Number(h[..4]), Number(h[8..12]);
    var at := |file| - 16 - 48 * qty;
    var es := EntriesOf(file[at..at + 48 * qty], qty);
    if namesLen > 0 {
      var nameAt := if at - namesLen >= 0 then at - namesLen else at + 48 * qty;
      TakenInOrder(es, 0, file[nameAt..nameAt + namesLen]);
    }
  }

  lemma LoadedTold(file: seq<int>)
    requires LoadDir(file).Ok?
    ensures Told(LoadDir(file).value)
  {
    hide LoadDir, ParamAt, LastNamed;
    var d := LoadDir(file).value;
    forall name, k: nat
      ensures (name, k) in d.params <==> ParamAt(d.entries, k) && LastNamed(d.entries, d.names, k, name)
    {
      LoadedParams(file, name, k);
    }
  }

  lemma {:induction false} AllInOrder(files: seq<seq<int>>)
    requires LoadAll(files).Ok?
    ensures forall f | 0 <= f < |LoadAll(files).value| ::
      Increasing(LoadAll(files).value[f].params) && Told(LoadAll(files).value[f])
    decreases |files|
  {
    hide LoadDir, Increasing, Told;
    if files != [] {
      AllInOrder(files[..|files| - 1]);
      LoadedInOrder(files[|files| - 1]);
      LoadedTold(files[|files| - 1]);
    }
  }

  // ----- the table -----

  // The keys of the table: the entry of place i leads to reference i.
  function Numbered(rs: seq<(Name, ParamRef)>): (ps: seq<(Hash.Key, int)>)
    ensures |ps| == |rs| && forall i | 0 <= i < |rs| :: ps[i] == (rs[i].0, i)
  {
    seq(|rs|, i requires 0 <= i < |rs| => (rs[i].0, i))
  }

  // Every parameter name can be hashed.
  ghost predicate KeysOk(files: seq<seq<int>>) {
    LoadAll(files).Ok? ==> forall r | r in RefsOf(LoadAll(files).value) :: Hash.KeyOk(r.0)
  }

  lemma {:induction false} NothingEntered(ps: seq<(Hash.Key, int)>, key: Hash.Key)
    requires forall i | 0 <= i < |ps| :: ps[i].0 != key
    ensures Hash.Entered(ps, key) == []
    decreases |ps|
  {
    if ps != [] {
      NothingEntered(ps[..|ps| - 1], key);
    }
  }

  // The last of the places of a name, or -1.
  function LastPlace(rs: seq<(Name, ParamRef)>, name: Name): (i: int)
    ensures -1 <= i < |rs| && (i >= 0 ==> rs[i].0 == name)
    ensures forall j | i < j < |rs| :: rs[j].0 != name
  {
    if rs == [] then -1
    else if rs[|rs| - 1].0 == name then |rs| - 1
    else LastPlace(rs[..|rs| - 1], name)
  }

  lemma EnteredIs(rs: seq<(Name, ParamRef)>, name: Name)
    ensures
      var s := Hash.Entered(Numbered(rs), name);
      var i := LastPlace(rs, name);
      if i < 0 then s == [] else s != [] && s[0] == Some(i)
  {
    hide LastPlace;
    var i := LastPlace(rs, name);
    if i < 0 {
      NothingEntered(Numbered(rs), name);
    } else {
      Hash.LastEntered(Numbered(rs), name, i);
    }
  }

  // p is the last parameter of this name.
  ghost predicate IsLast(dirs: seq<Loaded>, name: Name, p: ParamRef) {
    IsAt(dirs, name, p) && forall q | IsAt(dirs, name, q) :: q == p || Before(q, p)
  }

  ghost predicate IsNowhere(dirs: seq<Loaded>, name: Name) {
    forall q :: !IsAt(dirs, name, q)
  }

  lemma LastIs(dirs: seq<Loaded>, name: Name)
    requires forall f | 0 <= f < |dirs| :: Increasing(dirs[f].params) && Told(dirs[f])
    ensures
      var rs := RefsOf(dirs);
      var i := LastPlace(rs, name);
      if i < 0 then IsNowhere(dirs, name) else IsLast(dirs, name, rs[i].1)
  {
    hide LastPlace, RefsOf, IsAt, Increasing, Told;
    var rs := RefsOf(dirs);
    var i := LastPlace(rs, name);
    RefsInOrder(dirs);
    if i >= 0 {
      RefsAre(dirs, name, rs[i].1);
      assert rs[i] == (name, rs[i].1);
    }
    forall q | IsAt(dirs, name, q)
      ensures i >= 0 && (q == rs[i].1 || Before(q, rs[i].1))
    {
      RefsAre(dirs, name, q);
      var j :| 0 <= j < |rs| && rs[j] == (name, q);
    }
  }

  // What load_directories leaves: the directories, and the table of the parameters in them.
  method LoadParams(files: seq<seq<int>>, commits: int) returns (r: Result<seq<Loaded>>, table: Hash.Table)
    requires KeysOk(files)
    ensures r == LoadAll(files) && fresh(table) && fresh(table.buckets) && fresh(table.Entries()) && table.Valid()
    ensures r.Ok? ==> forall name | Hash.KeyOk(name) ::
      table.Stack(name) == Hash.Entered(Numbered(RefsOf(r.value)), name)
  {
    hide LoadAll, Hash.Entered, RefsOf;
    table := new Hash.Table(DEFAULT_HASH_TABLE_SIZE);
    var commitCount;
    r, commitCount := LoadDirectories(files, commits);
    if r.Ok? {
      table.EnterAll(Numbered(RefsOf(r.value)));
    }
  }

  // The parameter found under a name is the last there is.
  method FindParam(files: seq<seq<int>>, commits: int, name: Name) returns (r: Result<seq<Loaded>>, found: Option<ParamRef>)
    requires KeysOk(files) && Hash.KeyOk(name)
    ensures r == LoadAll(files)
    ensures r.Ok? ==>
      match found
      case None => IsNowhere(r.value, name)
      case Some(p) => IsLast(r.value, name, p)
  {
    hide LoadAll, Hash.Entered, RefsOf, IsNowhere, IsLast, LastPlace, Hash.KeyOk;
    var table;
    r, table := LoadParams(files, commits);
    if r.Err? {
      return r, None;
    }
    AllInOrder(files);
    EnteredIs(RefsOf(r.value), name);
    LastIs(r.value, name);
    var d := table.Find(name);
    if d == [] {
      return r, None;
    }
    return r, Some(RefsOf(r.value)[d[0].value].1);
  }

  // ----- a parameter written, and found -----

  function OneEntry(kind: int, offset: int, length: int): seq<Entry> {
    [Entry(kind, 0, 0, 1, offset, length)]
  }

  lemma OneFits(kind: int, offset: int, length: int)
    requires kind in {5, 6, 9} && Fits(offset, 8) && Fits(length, 8)
    ensures EntryFits(OneEntry(kind, offset, length)[0])
  {
    SmallFits(0, 8);
    SmallFits(1, 8);
    SmallFits(kind, 8);
    hide Fits;
  }

  lemma OneReady(kind: int, offset: int, length: int, name: Name)
    requires kind in {5, 6, 9} && IsName(name) && |name| < 100 && Fits(offset, 8) && Fits(length, 8)
    ensures
      var es := OneEntry(kind, offset, length);
      Sorted(es, [name]) && Representable(es, [name], 1) && ParamsNamed(es) && ParamsFrom(es, [name], 0) == [(name, 0)]
  {
    var es := OneEntry(kind, offset, length);
    OneFits(kind, offset, length);
    SmallFits(1, 4);
    OneName(name);
    SmallFits(|PaddedNames([name])|, 4);
    hide Fits, PaddedNames, IsName, EntryFits;
    assert es[..0] == [] && TotalStrings([]) == 0 && TotalStrings(es) == 1;
    assert forall i | 0 <= i < |es| :: es[i] == es[0];
    assert ParamsFrom(es, [name][1..], 1) == [];
    assert [(name, 0)] + [] == [(name, 0)];
  }

  lemma OneParam(file: seq<int>, kind: int, offset: int, length: int, name: Name)
    requires kind in {5, 6, 9} && IsName(name) && |name| < 100 && Fits(offset, 8) && Fits(length, 8)
    ensures
      var es := OneEntry(kind, offset, length);
      LoadAll([file + DirectoryBytes(es, [name], 1)]) == Ok([Loaded(es, [name], 1, [(name, 0)])])
  {
    var es := OneEntry(kind, offset, length);
    var f := file + DirectoryBytes(es, [name], 1);
    OneReady(kind, offset, length, name);
    hide Representable, Sorted, ParamsNamed, LoadDir, DirectoryBytes, ParamsFrom;
    DirectoryRoundTrip(file, es, [name], 1);
    OneFile(f);
  }

  lemma OneFile(f: seq<int>)
    requires LoadDir(f).Ok?
    ensures LoadAll([f]) == Ok([LoadDir(f).value])
  {
    hide LoadDir;
    assert [f][..0] == [] && LoadAll([]) == Ok([]);
    assert [] + [LoadDir(f).value] == [LoadDir(f).value];
  }

  // The one name can be hashed.
  lemma OneKey(files: seq<seq<int>>, d: Loaded, name: Name)
    requires LoadAll(files) == Ok([d]) && d.params == [(name, 0)] && Hash.KeyOk(name)
    ensures KeysOk(files)
  {
    hide LoadAll, Hash.KeyOk;
    assert [d][..0] == [];
    assert RefsOf([d]) == FileRefs(d.params, 0);
  }

  // A parameter of each of the three kinds, added to a directory and committed, is found in the file.
  method ParamRun(data: seq<int>, kind: int, offset: int, length: int, name: Name) returns (found: Option<ParamRef>)
    requires kind in {5, 6, 9} && IsName(name) && |name| < 100 && Hash.KeyOk(name) && Fits(offset, 8) && Fits(length, 8)
    ensures found == Some(ParamRef(0, 0))
  {
    hide LoadDir, DirectoryBytes, FileDir.Valid, FileDir.Pending, Hash.KeyOk, Fits, LoadAll;
    var dir := new FileDir();
    var ok := dir.AddEntry(kind, 0, 0, [name], offset, length);
    assert dir.entries == OneEntry(kind, offset, length) && dir.names == [name];
    var out := dir.CommitDir(0);
    OneParam(data, kind, offset, length, name);
    OneKey([data + out], Loaded(dir.entries, dir.names, 1, [(name, 0)]), name);
    var r;
    r, found := FindParam([data + out], 0, name);
    OneFound(r.value, name);
  }

  lemma OneFound(dirs: seq<Loaded>, name: Name)
    requires |dirs| == 1 && |dirs[0].entries| == 1 && ParamAt(dirs[0].entries, 0)
    requires dirs[0].entries[0].stringQty == 1 && dirs[0].names == [name]
    ensures IsAt(dirs, name, ParamRef(0, 0)) && forall p | IsAt(dirs, name, p) :: p == ParamRef(0, 0)
  {
    assert dirs[0].entries[..1][..0] == [];
    assert TotalStrings(dirs[0].entries[..1]) == 1;
  }
}
