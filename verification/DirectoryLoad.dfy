/**
 Reading a directory back from the end of a file, and the round trip: what was added to a
 directory before it was committed is what is found when the file is loaded.
 */
module DirectoryLoad {
  import opened Directory

  datatype LoadError =
    | SeekFailed
    | DirZeroCount
    | BadLoadRead
    | ShortRead
    | OutOfSync
    | NoCharBuf
    | NotOk
    | Outside      // state maps, or an entry with a negative number of names: not modelled

  datatype Result<+T> = Ok(value: T) | Err(error: LoadError)

  // What is loaded of one file: also the parameters, each by its name and entry.
  datatype Loaded = Loaded(entries: seq<Entry>, names: seq<Name>, commitCount: int, params: seq<(Name, nat)>)

  // ----- reading -----

  function EntryOf(b: seq<int>): Entry
    requires |b| == 48
  {
    Entry(Number(b[..8]), Number(b[8..16]), Number(b[16..24]), Number(b[24..32]), Number(b[32..40]), Number(b[40..]))
  }

  function EntriesOf(b: seq<int>, n: nat): (es: seq<Entry>)
    requires |b| == 48 * n
    ensures |es| == n
  {
    if n == 0 then [] else EntriesOf(b[..48 * (n - 1)], n - 1) + [EntryOf(b[48 * (n - 1)..])]
  }

  // Where the first zero is, or the length.
  function StringLength(b: seq<int>): (k: nat)
    ensures k <= |b| && (k < |b| ==> b[k] == 0) && forall i | 0 <= i < k :: b[i] != 0
  {
    if b == [] || b[0] == 0 then 0 else 1 + StringLength(b[1..])
  }

  // ios_string_traverse, in the only buffer of a loaded store.
  function NextName(rest: seq<int>): (r: Result<(Name, seq<int>)>)
    ensures r.Ok? ==> |r.value.1| < |rest|
  {
    if rest == [] then Err(NoCharBuf)
    else
      var k := StringLength(rest);
      if k == |rest| || k == 0 then Err(OutOfSync) else Ok((rest[..k], rest[k + 1..]))
  }

  function TakeNames(rest: seq<int>, n: nat): Result<(seq<Name>, seq<int>)>
    decreases n
  {
    if n == 0 then Ok(([], rest))
    else
      var r := NextName(rest);
      if r.Err? then Err(r.error)
      else
        var more := TakeNames(r.value.1, n - 1);
        if more.Err? then Err(more.error) else Ok(([r.value.0] + more.value.0, more.value.1))
  }

  // The names of the entries from i on, and the parameters among them.
  function TakeEntries(es: seq<Entry>, i: nat, rest: seq<int>): Result<(seq<Name>, seq<(Name, nat)>)>
    requires i <= |es|
    decreases |es| - i
  {
    if i == |es| then Ok(([], []))
    else if es[i].stringQty < 0 then Err(Outside)
    else
      var ns := TakeNames(rest, es[i].stringQty);
      if ns.Err? then Err(ns.error)
      else if IsParam(es[i].kind) && ns.value.0 == [] then Err(NotOk)
      else
        var more := TakeEntries(es, i + 1, ns.value.1);
        if more.Err? then Err(more.error)
        else
          var param := if IsParam(es[i].kind) then [(ns.value.0[|ns.value.0| - 1], i)] else [];
          Ok((ns.value.0 + more.value.0, param + more.value.1))
  }

  // load_directories, for one file. A seek before the start of the file fails and is not
  // noticed: reading goes on where it was.
  function LoadDir(file: seq<int>): Result<Loaded> {
    if |file| < 16 then Err(SeekFailed)
    else
      var h := file[|file| - 16..];
      var namesLen, commits, qty := Number(h[..4]), Number(h[4..8]), Number(h[8..12]);
      if qty < 1 then Err(DirZeroCount)
      else if Number(h[12..]) != 0 then Err(Outside)
      else LoadEntries(file, |file| - 16 - 48 * qty, namesLen, commits, qty)
  }

  // The entries at `at', and the names before them.
  function LoadEntries(file: seq<int>, at: int, namesLen: int, commits: int, qty: nat): Result<Loaded>
    requires at + 48 * qty <= |file|
  {
    if at < 0 then Err(BadLoadRead)
    else
      var es := EntriesOf(file[at..at + 48 * qty], qty);
      if namesLen <= 0 then
        if TotalStrings(es) == 0 then Ok(Loaded(es, [], commits, [])) else Err(Outside)
      else
        var nameAt := if at - namesLen >= 0 then at - namesLen else at + 48 * qty;
        if nameAt + namesLen > |file| then Err(ShortRead)
        else
          var r := TakeEntries(es, 0, file[nameAt..nameAt + namesLen]);
          if r.Err? then Err(r.error) else Ok(Loaded(es, r.value.0, commits, r.value.1))
  }

  // ----- the round trip -----

  // The names of entry i, and the parameters of entries i and on.
  function ParamsFrom(es: seq<Entry>, names: seq<Name>, i: nat): seq<(Name, nat)>
    requires i <= |es| && forall j | i <= j < |es| :: es[j].stringQty >= 0
    decreases |es| - i
  {
    if i == |es| then []
    else
      var n := es[i].stringQty;
      var more := ParamsFrom(es, if n <= |names| then names[n..] else [], i + 1);
      if IsParam(es[i].kind) && 0 < n <= |names| then [(names[n - 1], i)] + more else more
  }

  predicate ParamsNamed(es: seq<Entry>) {
    forall i | 0 <= i < |es| :: IsParam(es[i].kind) ==> es[i].stringQty > 0
  }

  lemma EntryRoundTrip(e: Entry)
    requires EntryFits(e)
    ensures EntryOf(EntryBytes(e)) == e
  {
    hide Bytes, Number, Fits;
    var b := EntryBytes(e);
    assert b[..8] == Bytes(e.kind, 8) && b[8..16] == Bytes(e.modifier1, 8) && b[16..24] == Bytes(e.modifier2, 8);
    assert b[24..32] == Bytes(e.stringQty, 8) && b[32..40] == Bytes(e.offset, 8) && b[40..] == Bytes(e.length, 8);
    NumberBytes(e.kind, 8);
    NumberBytes(e.modifier1, 8);
    NumberBytes(e.modifier2, 8);
    NumberBytes(e.stringQty, 8);
    NumberBytes(e.offset, 8);
    NumberBytes(e.length, 8);
  }

  lemma EntriesOfJoin(front: seq<int>, last: seq<int>, n: nat)
    requires |front| == 48 * n && |last| == 48
    ensures EntriesOf(front + last, n + 1) == EntriesOf(front, n) + [EntryOf(last)]
  {
    assert (front + last)[..48 * n] == front && (front + last)[48 * n..] == last;
  }

  lemma {:induction false} EntriesRoundTrip(es: seq<Entry>)
    requires forall i | 0 <= i < |es| :: EntryFits(es[i])
    ensures EntriesOf(EntriesBytes(es), |es|) == es
    decreases |es|
  {
    hide EntriesOf, EntryBytes, EntryOf, EntryFits;
    if es != [] {
      var n := |es| - 1;
      EntryRoundTrip(es[n]);
      EntriesRoundTrip(es[..n]);
      EntriesOfJoin(EntriesBytes(es[..n]), EntryBytes(es[n]), n);
    } else {
      NoEntries();
    }
  }

  lemma NoEntries()
    ensures EntriesOf([], 0) == []
  {
  }

  lemma {:induction false} NamesFirst(names: seq<Name>)
    requires names != []
    ensures NameBytes(names) == names[0] + [0] + NameBytes(names[1..])
    decreases |names|
  {
    var n := |names| - 1;
    if n > 0 {
      NamesFirst(names[..n]);
      assert names[..n][1..] == names[1..][..n - 1];
      var rest := NameBytes(names[1..][..n - 1]);
      assert (names[0] + [0] + rest) + names[n] + [0] == names[0] + [0] + (rest + names[n] + [0]);
    } else {
      assert names[..0] == [];
    }
  }

  lemma StringLengthIs(s: Name, rest: seq<int>)
    requires forall i | 0 <= i < |s| :: s[i] != 0
    ensures StringLength(s + [0] + rest) == |s|
  {
    var b := s + [0] + rest;
    assert b[|s|] == 0;
    forall i | 0 <= i < |s|
      ensures b[i] != 0
    {
      assert b[i] == s[i];
    }
  }

  lemma TakeNamesStep(rest: seq<int>, n: nat, first: Name, rest1: seq<int>, more: seq<Name>, rest2: seq<int>)
    requires n > 0 && NextName(rest) == Ok((first, rest1)) && TakeNames(rest1, n - 1) == Ok((more, rest2))
    ensures TakeNames(rest, n) == Ok(([first] + more, rest2))
  {
  }

  lemma {:induction false} NamesRoundTrip(names: seq<Name>, n: nat, tail: seq<int>)
    requires n <= |names| && forall i | 0 <= i < |names| :: IsName(names[i])
    ensures TakeNames(NameBytes(names) + tail, n) == Ok((names[..n], NameBytes(names[n..]) + tail))
    decreases n
  {
    hide NameBytes, NextName, IsName;
    if n > 0 {
      hide TakeNames;
      var more := NameBytes(names[1..]) + tail;
      var rest := NameBytes(names[1..][n - 1..]) + tail;
      NamesFirst(names);
      FirstNameTaken(names[0], more);
      NamesRoundTrip(names[1..], n - 1, tail);
      assert NameBytes(names) + tail == names[0] + [0] + more;
      TakeNamesStep(names[0] + [0] + more, n, names[0], more, names[1..][..n - 1], rest);
      assert names[1..][n - 1..] == names[n..];
      assert [names[0]] + names[1..][..n - 1] == names[..n];
    } else {
      assert names[0..] == names && names[..0] == [];
    }
  }

  lemma FirstNameTaken(s: Name, more: seq<int>)
    requires IsName(s)
    ensures NextName(s + [0] + more) == Ok((s, more))
  {
    var b := s + [0] + more;
    StringLengthIs(s, more);
    assert b[..|s|] == s && b[|s| + 1..] == more;
  }

  lemma TakeEntriesStep(es: seq<Entry>, i: nat, rest: seq<int>, ns: seq<Name>, rest1: seq<int>,
                        ms: seq<Name>, ps: seq<(Name, nat)>)
    requires i < |es| && es[i].stringQty >= 0 && TakeNames(rest, es[i].stringQty) == Ok((ns, rest1))
    requires IsParam(es[i].kind) ==> ns != []
    requires TakeEntries(es, i + 1, rest1) == Ok((ms, ps))
    ensures TakeEntries(es, i, rest) ==
      Ok((ns + ms, (if IsParam(es[i].kind) then [(ns[|ns| - 1], i)] else []) + ps))
  {
  }

  // The names are grouped with their entries again.
  lemma {:induction false} GroupsRoundTrip(es: seq<Entry>, i: nat, names: seq<Name>, tail: seq<int>)
    requires i <= |es| && ParamsNamed(es) && forall k | 0 <= k < |names| :: IsName(names[k])
    requires (forall j | i <= j < |es| :: es[j].stringQty >= 0) && SumFrom(es, i) == |names|
    ensures TakeEntries(es, i, NameBytes(names) + tail) == Ok((names, ParamsFrom(es, names, i)))
    decreases |es| - i
  {
    hide NameBytes, TakeNames, IsName, IsParam;
    if i < |es| {
      hide TakeEntries;
      var n := es[i].stringQty;
      SumNonNegative(es, i + 1);
      NamesRoundTrip(names, n, tail);
      GroupsRoundTrip(es, i + 1, names[n..], tail);
      TakeEntriesStep(es, i, NameBytes(names) + tail, names[..n], NameBytes(names[n..]) + tail,
                      names[n..], ParamsFrom(es, names[n..], i + 1));
      assert names[..n] + names[n..] == names;
      var ps := ParamsFrom(es, names[n..], i + 1);
      assert IsParam(es[i].kind) ==> n > 0 && names[..n][n - 1] == names[n - 1];
      assert ParamsFrom(es, names, i) == (if IsParam(es[i].kind) then [(names[n - 1], i)] else []) + ps;
    } else {
      assert names == [];
    }
  }

  function SumFrom(es: seq<Entry>, i: nat): int
    requires i <= |es|
    decreases |es| - i
  {
    if i == |es| then 0 else es[i].stringQty + SumFrom(es, i + 1)
  }

  lemma {:induction false} SumNonNegative(es: seq<Entry>, i: nat)
    requires i <= |es| && forall j | i <= j < |es| :: es[j].stringQty >= 0
    ensures SumFrom(es, i) >= 0
    decreases |es| - i
  {
    if i < |es| {
      SumNonNegative(es, i + 1);
    }
  }

  lemma {:induction false} SumIsTotal(es: seq<Entry>, i: nat)
    requires i <= |es|
    ensures TotalStrings(es[..i]) + SumFrom(es, i) == TotalStrings(es)
    decreases |es| - i
  {
    if i < |es| {
      SumIsTotal(es, i + 1);
      assert es[..i + 1][..i] == es[..i];
    } else {
      assert es[..i] == es;
    }
  }

  // What CommitDir adds at the end of a file is what LoadDir finds there, if every parameter
  // has a name, and only then; without any names it is not checked.
  lemma DirectoryRoundTrip(file: seq<int>, es: seq<Entry>, names: seq<Name>, commitCount: int)
    requires es != [] && Sorted(es, names) && Representable(es, names, commitCount)
    ensures LoadDir(file + DirectoryBytes(es, names, commitCount)) == Ok(Loaded(es, names, commitCount,
              if names == [] then [] else ParamsFrom(es, names, 0)))
            <==> names == [] || ParamsNamed(es)
    ensures names != [] && !ParamsNamed(es) ==> LoadDir(file + DirectoryBytes(es, names, commitCount)) == Err(NotOk)
  {
    var n, e, h := PaddedNames(names), EntriesBytes(es), HeaderBytes(|PaddedNames(names)|, commitCount, |es|, 0);
    CommittedLoads(file, es, names, commitCount);
    hide PaddedNames, LoadDir, Representable, DirectoryBytes, TakeEntries;
    NoNames(names);
    if names != [] {
      SumIsTotal(es, 0);
      PaddedTail(names);
      if ParamsNamed(es) {
        GroupsRoundTrip(es, 0, names, n[|NameBytes(names)|..]);
      } else {
        UnnamedParam(es, 0, names, n[|NameBytes(names)|..]);
      }
    }
  }

  lemma CommittedLoads(file: seq<int>, es: seq<Entry>, names: seq<Name>, commitCount: int)
    requires es != [] && Representable(es, names, commitCount)
    ensures LoadDir(file + DirectoryBytes(es, names, commitCount)) == PartsLoaded(PaddedNames(names), es, commitCount)
  {
    hide PaddedNames, LoadDir, HeaderBytes, EntriesBytes, EntriesOf, Number, EntryFits, Fits;
    var n, e, h := PaddedNames(names), EntriesBytes(es), HeaderBytes(|PaddedNames(names)|, commitCount, |es|, 0);
    HeaderRoundTrip(|n|, commitCount, |es|);
    EntriesRoundTrip(es);
    Slices(file, n, e, h);
    LoadParts(file + (n + e + h), |file| + |n|, n, h, es, commitCount);
  }

  lemma HeaderRoundTrip(namesLen: int, commitCount: int, qty: int)
    requires Fits(namesLen, 4) && Fits(commitCount, 4) && Fits(qty, 4)
    ensures
      var h := HeaderBytes(namesLen, commitCount, qty, 0);
      Number(h[..4]) == namesLen && Number(h[4..8]) == commitCount && Number(h[8..12]) == qty && Number(h[12..]) == 0
  {
    var h := HeaderBytes(namesLen, commitCount, qty, 0);
    NumberBytes(namesLen, 4);
    NumberBytes(commitCount, 4);
    NumberBytes(qty, 4);
    NumberBytes(0, 4);
    ZeroFits();
    hide Bytes, Number, Fits;
    assert h[..4] == Bytes(namesLen, 4) && h[4..8] == Bytes(commitCount, 4);
    assert h[8..12] == Bytes(qty, 4) && h[12..] == Bytes(0, 4);
  }

  lemma ZeroFits()
    ensures Fits(0, 4)
  {
  }

  // The parts of a committed file, found from its end.
  function PartsLoaded(n: seq<int>, es: seq<Entry>, commitCount: int): Result<Loaded> {
    if n == [] then (if TotalStrings(es) == 0 then Ok(Loaded(es, [], commitCount, [])) else Err(Outside))
    else
      var r := TakeEntries(es, 0, n);
      if r.Err? then Err(r.error) else Ok(Loaded(es, r.value.0, commitCount, r.value.1))
  }

  lemma EntriesLoad(f: seq<int>, at: nat, k: nat, commitCount: int, q: nat)
    requires k <= at && at + 48 * q <= |f|
    ensures LoadEntries(f, at, k, commitCount, q)
         == PartsLoaded(f[at - k..at], EntriesOf(f[at..at + 48 * q], q), commitCount)
  {
    hide EntriesOf, TakeEntries, TotalStrings;
    var nameAt := at - k;
    assert nameAt + k == at;
    assert |f[nameAt..at]| == k;
  }

  lemma LoadParts(f: seq<int>, at: nat, n: seq<int>, h: seq<int>, es: seq<Entry>, commitCount: int)
    requires |h| == 16 && es != [] && at + 48 * |es| + 16 == |f| && |n| <= at
    requires f[|f| - 16..] == h && EntriesOf(f[at..at + 48 * |es|], |es|) == es && f[at - |n|..at] == n
    requires Number(h[..4]) == |n| && Number(h[4..8]) == commitCount && Number(h[8..12]) == |es| && Number(h[12..]) == 0
    ensures LoadDir(f) == PartsLoaded(n, es, commitCount)
  {
    hide EntriesOf, Number, LoadDir, LoadEntries, PartsLoaded;
    HeaderLoads(f, h);
    EntriesLoad(f, at, |n|, commitCount, |es|);
  }

  lemma HeaderLoads(f: seq<int>, h: seq<int>)
    requires |h| == 16 && |f| >= 16 && f[|f| - 16..] == h && Number(h[8..12]) >= 1 && Number(h[12..]) == 0
    ensures LoadDir(f) ==
      LoadEntries(f, |f| - 16 - 48 * Number(h[8..12]), Number(h[..4]), Number(h[4..8]), Number(h[8..12]))
  {
    hide EntriesOf, Number, LoadEntries;
  }

  lemma Slices(file: seq<int>, n: seq<int>, e: seq<int>, h: seq<int>)
    ensures
      var f := file + (n + e + h);
      var at := |file| + |n|;
      f[|f| - |h|..] == h && f[at..at + |e|] == e && f[at - |n|..at] == n
  {
  }

  lemma NoNames(names: seq<Name>)
    ensures PaddedNames(names) == [] <==> names == []
  {
  }

  lemma PaddedTail(names: seq<Name>)
    ensures
      var n := PaddedNames(names);
      |NameBytes(names)| <= |n| && n == NameBytes(names) + n[|NameBytes(names)|..]
  {
  }

  // A parameter without a name stops the load.
  lemma {:induction false} UnnamedParam(es: seq<Entry>, i: nat, names: seq<Name>, tail: seq<int>)
    requires i <= |es| && exists j | i <= j < |es| :: IsParam(es[j].kind) && es[j].stringQty <= 0
    requires forall k | 0 <= k < |names| :: IsName(names[k])
    requires (forall j | i <= j < |es| :: es[j].stringQty >= 0) && SumFrom(es, i) == |names|
    ensures TakeEntries(es, i, NameBytes(names) + tail) == Err(NotOk)
    decreases |es| - i
  {
    hide NameBytes, TakeNames, IsName, IsParam;
    var n := es[i].stringQty;
    if IsParam(es[i].kind) && n <= 0 {
      NoneTaken(NameBytes(names) + tail);
    } else {
      SumNonNegative(es, i + 1);
      NamesRoundTrip(names, n, tail);
      assert IsParam(es[i].kind) ==> names[..n] != [];
      UnnamedParam(es, i + 1, names[n..], tail);
    }
  }

  lemma NoneTaken(rest: seq<int>)
    ensures TakeNames(rest, 0) == Ok(([], rest))
  {
  }

  // ----- where everything stands -----

  lemma {:induction false} EntryPlace(es: seq<Entry>, i: nat)
    requires i < |es|
    ensures EntriesBytes(es)[48 * i..48 * i + 48] == EntryBytes(es[i])
    decreases |es|
  {
    hide EntryBytes;
    var n := |es| - 1;
    var front := EntriesBytes(es[..n]);
    if i < n {
      EntryPlace(es[..n], i);
      assert EntriesBytes(es)[48 * i..48 * i + 48] == front[48 * i..48 * i + 48];
    }
  }

  // Number k of those of eight bytes from place `at' on.
  function Field(d: seq<int>, at: nat, k: nat): int
    requires at + 8 * k + 8 <= |d|
  {
    Number(d[at + 8 * k..at + 8 * k + 8])
  }

  // An entry stands at `at' as its six numbers, in this order.
  predicate EntryAt(d: seq<int>, at: nat, e: Entry) {
    && at + 48 <= |d|
    && Field(d, at, 0) == e.kind && Field(d, at, 1) == e.modifier1 && Field(d, at, 2) == e.modifier2
    && Field(d, at, 3) == e.stringQty && Field(d, at, 4) == e.offset && Field(d, at, 5) == e.length
  }

  // A header stands at `at': the length of the names, the commit, the number of entries, and no states.
  predicate HeaderAt(d: seq<int>, at: nat, namesLen: int, commitCount: int, qty: int) {
    && at + 16 == |d|
    && Number(d[at..at + 4]) == namesLen && Number(d[at + 4..at + 8]) == commitCount
    && Number(d[at + 8..at + 12]) == qty && d[at + 12..] == [0, 0, 0, 0]
  }

  lemma EntryFields(e: Entry)
    requires EntryFits(e)
    ensures EntryAt(EntryBytes(e), 0, e)
  {
    hide Number, EntryFits, EntryBytes;
    EntryRoundTrip(e);
    var b := EntryBytes(e);
    assert b[..8] == b[0..8] && b[40..] == b[40..48];
  }

  // Bytes that stand in others.
  lemma Inside(d: seq<int>, at: nat, b: seq<int>, x: nat, y: nat)
    requires at + |b| <= |d| && d[at..at + |b|] == b && x <= y <= |b|
    ensures d[at + x..at + y] == b[x..y]
  {
    forall k | 0 <= k < y - x
      ensures d[at + x..at + y][k] == b[x..y][k]
    {
      assert d[at..at + |b|][x + k] == d[at + x + k];
    }
  }

  lemma FieldInside(d: seq<int>, at: nat, b: seq<int>, k: nat)
    requires k < 6 && |b| == 48 && at + 48 <= |d| && d[at..at + 48] == b
    ensures Field(d, at, k) == Field(b, 0, k)
  {
    hide Number;
    Inside(d, at, b, 8 * k, 8 * k + 8);
  }

  lemma FieldsAt(d: seq<int>, at: nat, e: Entry)
    requires EntryFits(e) && at + 48 <= |d| && d[at..at + 48] == EntryBytes(e)
    ensures EntryAt(d, at, e)
  {
    hide Field, Number, EntryFits, EntryBytes;
    EntryFields(e);
    FieldInside(d, at, EntryBytes(e), 0);
    FieldInside(d, at, EntryBytes(e), 1);
    FieldInside(d, at, EntryBytes(e), 2);
    FieldInside(d, at, EntryBytes(e), 3);
    FieldInside(d, at, EntryBytes(e), 4);
    FieldInside(d, at, EntryBytes(e), 5);
  }

  function Three(a: seq<int>, b: seq<int>, c: seq<int>): seq<int> {
    a + b + c
  }

  lemma ThreeParts(a: seq<int>, b: seq<int>, c: seq<int>)
    ensures
      var d := Three(a, b, c);
      && |d| == |a| + |b| + |c| && d[..|a|] == a && d[|a|..|a| + |b|] == b && d[|a| + |b|..] == c
  {
  }

  lemma NamesStand(names: seq<Name>, e: seq<int>, h: seq<int>)
    ensures
      var d := Three(PaddedNames(names), e, h);
      |NameBytes(names)| <= |d| && d[..|NameBytes(names)|] == NameBytes(names)
  {
    PaddedTail(names);
    ThreeParts(PaddedNames(names), e, h);
    hide *;
    var d, p := Three(PaddedNames(names), e, h), PaddedNames(names);
    assert d[0..0 + |p|] == d[..|p|];
    Inside(d, 0, p, 0, |NameBytes(names)|);
    assert p[0..|NameBytes(names)|] == p[..|NameBytes(names)|];
  }

  lemma EntryStands(p: seq<int>, es: seq<Entry>, h: seq<int>, i: nat)
    requires i < |es| && EntryFits(es[i])
    ensures EntryAt(Three(p, EntriesBytes(es), h), |p| + 48 * i, es[i])
  {
    hide *;
    var e := EntriesBytes(es);
    EntryPlace(es, i);
    ThreeParts(p, e, h);
    Inside(Three(p, e, h), |p|, e, 48 * i, 48 * i + 48);
    FieldsAt(Three(p, e, h), |p| + 48 * i, es[i]);
  }

  lemma HeaderStands(p: seq<int>, e: seq<int>, namesLen: int, commitCount: int, qty: int)
    requires Fits(namesLen, 4) && Fits(commitCount, 4) && Fits(qty, 4)
    ensures HeaderAt(Three(p, e, HeaderBytes(namesLen, commitCount, qty, 0)), |p| + |e|, namesLen, commitCount, qty)
  {
    var h := HeaderBytes(namesLen, commitCount, qty, 0);
    HeaderRoundTrip(namesLen, commitCount, qty);
    HeaderEnd(namesLen, commitCount, qty);
    ThreeParts(p, e, h);
    hide *;
    HeaderFrom(Three(p, e, h), |p| + |e|, h, namesLen, commitCount, qty);
  }

  lemma HeaderFrom(d: seq<int>, at: nat, h: seq<int>, namesLen: int, commitCount: int, qty: int)
    requires at + 16 == |d| && |h| == 16 && d[at..] == h
    requires Number(h[..4]) == namesLen && Number(h[4..8]) == commitCount && Number(h[8..12]) == qty && h[12..] == [0, 0, 0, 0]
    ensures HeaderAt(d, at, namesLen, commitCount, qty)
  {
    hide Number;
    TailSlice(d, at, 0, 4);
    TailSlice(d, at, 4, 8);
    TailSlice(d, at, 8, 12);
    TailSlice(d, at, 12, 16);
    assert h[..4] == h[0..4] && h[12..] == h[12..16] && d[at + 12..] == d[at + 12..at + 16];
  }

  lemma TailSlice(d: seq<int>, at: nat, x: nat, y: nat)
    requires x <= y && at + y <= |d|
    ensures d[at..][x..y] == d[at + x..at + y]
  {
    forall k | 0 <= k < y - x
      ensures d[at..][x..y][k] == d[at + x..at + y][k]
    {
      assert d[at..][x + k] == d[at + x + k];
    }
  }

  lemma HeaderEnd(namesLen: int, commitCount: int, qty: int)
    ensures HeaderBytes(namesLen, commitCount, qty, 0)[12..] == [0, 0, 0, 0]
  {
    LowFirst(0);
    hide Bytes;
  }

  lemma PartsFit(es: seq<Entry>, names: seq<Name>, commitCount: int, i: nat)
    requires i < |es| && Representable(es, names, commitCount)
    ensures EntryFits(es[i]) && Fits(|PaddedNames(names)|, 4) && Fits(commitCount, 4) && Fits(|es|, 4)
    ensures DirectoryBytes(es, names, commitCount)
         == Three(PaddedNames(names), EntriesBytes(es), HeaderBytes(|PaddedNames(names)|, commitCount, |es|, 0))
  {
    hide EntryFits, Fits, PaddedNames, EntriesBytes, HeaderBytes;
  }

  // A directory begins with its names, each with a zero after it; the entries come after the padding,
  // and the header is at the end.
  lemma DirectoryLayout(es: seq<Entry>, names: seq<Name>, commitCount: int, i: nat)
    requires i < |es| && Representable(es, names, commitCount)
    ensures
      var (d, n) := (DirectoryBytes(es, names, commitCount), |PaddedNames(names)|);
      && |NameBytes(names)| <= |d| && d[..|NameBytes(names)|] == NameBytes(names)
      && EntryAt(d, n + 48 * i, es[i]) && HeaderAt(d, n + 48 * |es|, n, commitCount, |es|)
  {
    hide *;
    PartsFit(es, names, commitCount, i);
    var p, e := PaddedNames(names), EntriesBytes(es);
    NamesStand(names, e, HeaderBytes(|p|, commitCount, |es|, 0));
    EntryStands(p, es, HeaderBytes(|p|, commitCount, |es|, 0), i);
    HeaderStands(p, e, |p|, commitCount, |es|);
  }

  // ----- which entries are parameters, and what they are called -----

  // Entry k goes by a name, and this is the last of its names: the names of the entries stand one
  // after the other.
  predicate LastNamed(es: seq<Entry>, names: seq<Name>, k: nat, name: Name) {
    && k < |es| && es[k].stringQty > 0
    && 0 < TotalStrings(es[..k + 1]) <= |names| && name == names[TotalStrings(es[..k + 1]) - 1]
  }

  // The same, for names that begin with those of entry i.
  predicate LastFrom(es: seq<Entry>, i: nat, names: seq<Name>, k: nat, name: Name) {
    && i <= k < |es| && es[k].stringQty > 0
    && 0 < SumFrom(es, i) - SumFrom(es, k + 1) <= |names| && name == names[SumFrom(es, i) - SumFrom(es, k + 1) - 1]
  }

  predicate ParamAt(es: seq<Entry>, k: nat) {
    k < |es| && (es[k].kind == 5 || es[k].kind == 6 || es[k].kind == 9)
  }

  lemma {:induction false} SumFalls(es: seq<Entry>, i: nat, k: nat)
    requires i <= k <= |es| && forall j | i <= j < |es| :: es[j].stringQty >= 0
    ensures SumFrom(es, i) >= SumFrom(es, k)
    decreases k - i
  {
    if i < k {
      SumFalls(es, i + 1, k);
    }
  }

  lemma {:induction false} TakenNumber(rest: seq<int>, n: nat)
    requires TakeNames(rest, n).Ok?
    ensures |TakeNames(rest, n).value.0| == n
    decreases n
  {
    hide NextName;
    if n > 0 {
      TakenNumber(NextName(rest).value.1, n - 1);
    }
  }

  // The names of an entry, and then those of the entries after it.
  lemma LastStep(es: seq<Entry>, i: nat, ns: seq<Name>, more: seq<Name>, k: nat, name: Name)
    requires i < |es| && (forall j | i <= j < |es| :: es[j].stringQty >= 0) && |ns| == es[i].stringQty
    ensures LastFrom(es, i, ns + more, k, name) <==>
      if k == i then ns != [] && name == ns[|ns| - 1] else LastFrom(es, i + 1, more, k, name)
  {
    if i < k < |es| {
      SumFalls(es, i + 1, k);
      assert SumFrom(es, k) == es[k].stringQty + SumFrom(es, k + 1);
      assert SumFrom(es, i) == es[i].stringQty + SumFrom(es, i + 1);
    }
  }

  lemma {:induction false} TakenAre(es: seq<Entry>, i: nat, rest: seq<int>, name: Name, k: nat)
    requires i <= |es| && TakeEntries(es, i, rest).Ok?
    ensures
      var (names, params) := TakeEntries(es, i, rest).value;
      && (forall j | i <= j < |es| :: es[j].stringQty >= 0)
      && ((name, k) in params <==> ParamAt(es, k) && LastFrom(es, i, names, k, name))
    decreases |es| - i
  {
    hide TakeNames, LastFrom;
    if i < |es| {
      var ns := TakeNames(rest, es[i].stringQty).value;
      TakenNumber(rest, es[i].stringQty);
      TakenAre(es, i + 1, ns.1, name, k);
      var more := TakeEntries(es, i + 1, ns.1).value;
      LastStep(es, i, ns.0, more.0, k, name);
      TakenLater(es, i + 1, ns.1, name, k);
    } else {
      NoneFrom(es, i, [], k, name);
    }
  }

  lemma NoneFrom(es: seq<Entry>, i: nat, names: seq<Name>, k: nat, name: Name)
    ensures k < i ==> !LastFrom(es, i, names, k, name)
    ensures k >= |es| ==> !LastFrom(es, i, names, k, name)
  {
  }

  lemma TakenLater(es: seq<Entry>, i: nat, rest: seq<int>, name: Name, k: nat)
    requires i <= |es| && TakeEntries(es, i, rest).Ok?
    requires
      var (names, params) := TakeEntries(es, i, rest).value;
      (name, k) in params <==> ParamAt(es, k) && LastFrom(es, i, names, k, name)
    ensures (name, k) in TakeEntries(es, i, rest).value.1 ==> i <= k
  {
    hide TakeEntries;
  }

  lemma LastFromStart(es: seq<Entry>, names: seq<Name>, k: nat, name: Name)
    ensures LastFrom(es, 0, names, k, name) <==> LastNamed(es, names, k, name)
  {
    if k < |es| {
      SumIsTotal(es, k + 1);
      SumIsTotal(es, 0);
    }
  }

  lemma NoneNamed(es: seq<Entry>, k: nat, name: Name)
    ensures !LastNamed(es, [], k, name)
  {
  }

  // The parameters of a file are its entries of the three kinds, each under the last of its names.
  lemma LoadedParams(file: seq<int>, name: Name, k: nat)
    requires LoadDir(file).Ok?
    ensures
      var d := LoadDir(file).value;
      (name, k) in d.params <==> ParamAt(d.entries, k) && LastNamed(d.entries, d.names, k, name)
  {
    hide EntriesOf, TakeEntries, Number, TotalStrings, ParamAt, LastFrom, LastNamed;
    NoneNamed(LoadDir(file).value.entries, k, name);
    var h := file[|file| - 16..];
    var namesLen, qty := Number(h[..4]), Number(h[8..12]);
    var at := |file| - 16 - 48 * qty;
    var es := EntriesOf(file[at..at + 48 * qty], qty);
    if namesLen > 0 {
      var nameAt := if at - namesLen >= 0 then at - namesLen else at + 48 * qty;
      TakenAre(es, 0, file[nameAt..nameAt + namesLen], name, k);
      LastFromStart(es, LoadDir(file).value.names, k, name);
    }
  }

  // ----- the loops -----

  // What the names and parameters found so far are followed by.
  function Extended(names: seq<Name>, params: seq<(Name, nat)>, r: Result<(seq<Name>, seq<(Name, nat)>)>)
    : Result<(seq<Name>, seq<(Name, nat)>)>
  {
    if r.Err? then Err(r.error) else Ok((names + r.value.0, params + r.value.1))
  }

  lemma ExtendedStep(names: seq<Name>, params: seq<(Name, nat)>, ns: seq<Name>, ps: seq<(Name, nat)>,
                     r: Result<(seq<Name>, seq<(Name, nat)>)>)
    ensures Extended(names, params, Extended(ns, ps, r)) == Extended(names + ns, params + ps, r)
  {
    if r.Ok? {
      assert names + (ns + r.value.0) == (names + ns) + r.value.0;
      assert params + (ps + r.value.1) == (params + ps) + r.value.1;
    }
  }

  function Prefixed(names: seq<Name>, r: Result<(seq<Name>, seq<int>)>): Result<(seq<Name>, seq<int>)> {
    if r.Err? then Err(r.error) else Ok((names + r.value.0, r.value.1))
  }

  lemma PrefixedStep(names: seq<Name>, rest: seq<int>, n: nat)
    ensures Prefixed([], TakeNames(rest, n)) == TakeNames(rest, n)
    ensures n > 0 && NextName(rest).Ok? ==>
      var s := NextName(rest).value;
      Prefixed(names, TakeNames(rest, n)) == Prefixed(names + [s.0], TakeNames(s.1, n - 1))
  {
    if TakeNames(rest, n).Ok? {
      assert [] + TakeNames(rest, n).value.0 == TakeNames(rest, n).value.0;
    }
    if n > 0 && NextName(rest).Ok? {
      var s := NextName(rest).value;
      var more := TakeNames(s.1, n - 1);
      if more.Ok? {
        assert names + ([s.0] + more.value.0) == (names + [s.0]) + more.value.0;
      }
    }
  }

  // The strings of one entry.
  method ReadStrings(buf: seq<int>, n: nat) returns (r: Result<(seq<Name>, seq<int>)>)
    ensures r == TakeNames(buf, n)
  {
    hide NextName;
    var names: seq<Name>, rest := [], buf;
    PrefixedStep(names, rest, n);
    for j := 0 to n
      invariant TakeNames(buf, n) == Prefixed(names, TakeNames(rest, n - j))
    {
      var s := NextName(rest);
      if s.Err? {
        return Err(s.error);
      }
      PrefixedStep(names, rest, n - j);
      names, rest := names + [s.value.0], s.value.1;
    }
    assert names + [] == names;
    return Ok((names, rest));
  }

  method ReadNames(es: seq<Entry>, buf: seq<int>) returns (r: Result<(seq<Name>, seq<(Name, nat)>)>)
    ensures r == TakeEntries(es, 0, buf)
  {
    hide TakeNames, IsParam, NextName;
    var names: seq<Name>, params: seq<(Name, nat)>, rest := [], [], buf;
    ExtendedNothing(TakeEntries(es, 0, buf));
    for i := 0 to |es|
      invariant TakeEntries(es, 0, buf) == Extended(names, params, TakeEntries(es, i, rest))
    {
      if es[i].stringQty < 0 {
        return Err(Outside);
      }
      var ns := ReadStrings(rest, es[i].stringQty);
      if ns.Err? {
        return Err(ns.error);
      }
      var pName := ns.value.0;
      if IsParam(es[i].kind) && pName == [] {
        return Err(NotOk);
      }
      var ps: seq<(Name, nat)> := if IsParam(es[i].kind) then [(pName[|pName| - 1], i)] else [];
      ExtendedStep(names, params, pName, ps, TakeEntries(es, i + 1, ns.value.1));
      names, params, rest := names + pName, params + ps, ns.value.1;
    }
    assert names + [] == names && params + [] == params;
    return Ok((names, params));
  }

  lemma ExtendedNothing(r: Result<(seq<Name>, seq<(Name, nat)>)>)
    ensures Extended([], [], r) == r
  {
    if r.Ok? {
      assert [] + r.value.0 == r.value.0 && [] + r.value.1 == r.value.1;
    }
  }

  method ReadEntries(b: seq<int>, n: nat) returns (es: seq<Entry>)
    requires |b| == 48 * n
    ensures es == EntriesOf(b, n)
  {
    hide EntryOf;
    es := [];
    for i := 0 to n
      invariant es == EntriesOf(b[..48 * i], i)
    {
      EntriesOfJoin(b[..48 * i], b[48 * i..48 * i + 48], i);
      assert b[..48 * i] + b[48 * i..48 * i + 48] == b[..48 * (i + 1)];
      es := es + [EntryOf(b[48 * i..48 * i + 48])];
    }
    assert b[..48 * n] == b;
  }

  // load_directories, one turn of its loop.
  method LoadFile(file: seq<int>) returns (r: Result<Loaded>)
    ensures r == LoadDir(file)
  {
    hide EntriesOf, TakeEntries, Number, TotalStrings;
    if |file| < 16 {
      return Err(SeekFailed);
    }
    var h := file[|file| - 16..];
    var namesLen, commits, qty := Number(h[..4]), Number(h[4..8]), Number(h[8..12]);
    if qty < 1 {
      return Err(DirZeroCount);
    }
    if Number(h[12..]) != 0 {
      return Err(Outside);
    }
    var offset := -16 - 48 * qty;
    if |file| + offset < 0 {
      return Err(BadLoadRead);
    }
    var es := ReadEntries(file[|file| + offset..|file| + offset + 48 * qty], qty);
    if namesLen <= 0 {
      return if TotalStrings(es) == 0 then Ok(Loaded(es, [], commits, [])) else Err(Outside);
    }
    var nameAt := if |file| + offset - namesLen >= 0 then |file| + offset - namesLen else |file| - 16;
    if nameAt + namesLen > |file| {
      return Err(ShortRead);
    }
    var names := ReadNames(es, file[nameAt..nameAt + namesLen]);
    return if names.Err? then Err(names.error) else Ok(Loaded(es, names.value.0, commits, names.value.1));
  }

  // All the files of a family: the first that cannot be loaded stops it.
  function LoadAll(files: seq<seq<int>>): Result<seq<Loaded>> {
    if files == [] then Ok([])
    else
      var before := LoadAll(files[..|files| - 1]);
      if before.Err? then before
      else
        var last := LoadDir(files[|files| - 1]);
        if last.Err? then Err(last.error) else Ok(before.value + [last.value])
  }

  lemma {:induction false} LoadAllStops(files: seq<seq<int>>, i: nat)
    requires i <= |files| && LoadAll(files[..i]).Err?
    ensures LoadAll(files) == LoadAll(files[..i])
    decreases |files|
  {
    if i < |files| {
      assert files[..|files| - 1][..i] == files[..i];
      LoadAllStops(files[..|files| - 1], i);
    } else {
      assert files[..i] == files;
    }
  }

  function LatestCommit(dirs: seq<Loaded>, commits: int): (c: int)
    ensures c >= commits && forall i | 0 <= i < |dirs| :: c >= dirs[i].commitCount
    ensures c == commits || exists i | 0 <= i < |dirs| :: c == dirs[i].commitCount
  {
    if dirs == [] then commits
    else
      var c := LatestCommit(dirs[..|dirs| - 1], commits);
      var d := dirs[|dirs| - 1];
      if c < d.commitCount then d.commitCount else c
  }

  method LoadDirectories(files: seq<seq<int>>, commits: int) returns (r: Result<seq<Loaded>>, commitCount: int)
    ensures r == LoadAll(files)
    ensures r.Ok? ==> |r.value| == |files| && commitCount == LatestCommit(r.value, commits)
  {
    hide LoadDir;
    var dirs := [];
    commitCount := commits;
    for fcnt := 0 to |files|
      invariant LoadAll(files[..fcnt]) == Ok(dirs) && |dirs| == fcnt
      invariant commitCount == LatestCommit(dirs, commits)
    {
      var d := LoadFile(files[fcnt]);
      assert files[..fcnt + 1][..fcnt] == files[..fcnt];
      if d.Err? {
        LoadAllStops(files, fcnt + 1);
        return Err(d.error), commitCount;
      }
      ghost var before := dirs;
      dirs := dirs + [d.value];
      assert dirs[..fcnt] == before;
      if commitCount < d.value.commitCount {
        commitCount := d.value.commitCount;
      }
    }
    assert files[..|files|] == files;
    return Ok(dirs), commitCount;
  }

  // ----- whole families -----

  // A file when its directory is committed: what was written before, and the directory.
  datatype Committed = Committed(data: seq<int>, entries: seq<Entry>, names: seq<Name>, commitCount: int)

  function FileOf(c: Committed): seq<int> {
    c.data + DirectoryBytes(c.entries, c.names, c.commitCount)
  }

  predicate Loadable(c: Committed) {
    && c.entries != [] && Sorted(c.entries, c.names) && Representable(c.entries, c.names, c.commitCount)
    && (c.names == [] || ParamsNamed(c.entries))
  }

  function LoadedOf(c: Committed): Loaded
    requires Loadable(c)
  {
    Loaded(c.entries, c.names, c.commitCount, if c.names == [] then [] else ParamsFrom(c.entries, c.names, 0))
  }

  function FilesOf(cs: seq<Committed>): seq<seq<int>> {
    if cs == [] then [] else FilesOf(cs[..|cs| - 1]) + [FileOf(cs[|cs| - 1])]
  }

  function AllLoaded(cs: seq<Committed>): (ls: seq<Loaded>)
    requires forall i | 0 <= i < |cs| :: Loadable(cs[i])
    ensures |ls| == |cs| && forall i | 0 <= i < |cs| :: ls[i] == LoadedOf(cs[i])
  {
    seq(|cs|, i requires 0 <= i < |cs| => LoadedOf(cs[i]))
  }

  // Every directory of a family comes back as it was committed.
  lemma {:induction false} FamilyRoundTrip(cs: seq<Committed>)
    requires forall i | 0 <= i < |cs| :: Loadable(cs[i])
    ensures LoadAll(FilesOf(cs)) == Ok(AllLoaded(cs))
    decreases |cs|
  {
    hide FileOf, Loadable, LoadedOf, LoadDir;
    if cs != [] {
      var n := |cs| - 1;
      FamilyRoundTrip(cs[..n]);
      CommittedFile(cs[n]);
      var files := FilesOf(cs);
      assert files[..|files| - 1] == FilesOf(cs[..n]) && files[|files| - 1] == FileOf(cs[n]);
      assert AllLoaded(cs) == AllLoaded(cs[..n]) + [LoadedOf(cs[n])];
    }
  }

  lemma CommittedFile(c: Committed)
    requires Loadable(c)
    ensures LoadDir(FileOf(c)) == Ok(LoadedOf(c))
  {
    DirectoryRoundTrip(c.data, c.entries, c.names, c.commitCount);
  }

  // ----- a directory that does not come back -----

  lemma {:induction false} ScaleAtLeast(n: nat)
    requires n > 0
    ensures Scale(n) >= 256
  {
    if n > 1 {
      ScaleAtLeast(n - 1);
    }
  }

  lemma SmallFits(x: int, n: nat)
    requires n > 0 && -128 <= x < 128
    ensures Fits(x, n)
  {
    ScaleAtLeast(n);
  }

  // One entry with a name, and a parameter without.
  function UnnamedEntries(kind: int): seq<Entry> {
    [Entry(kind, 0, 0, 1, 0, 0), Entry(MILI_PARAM, 0, 0, 0, 0, 0)]
  }

  lemma UnnamedFails(file: seq<int>, kind: int, name: Name, commitCount: int)
    requires IsName(name) && |name| < 100 && 0 <= kind < QTY_DIR_ENTRY_TYPES && 0 <= commitCount < 100
    ensures LoadDir(file + DirectoryBytes(UnnamedEntries(kind), [name], commitCount)) == Err(NotOk)
  {
    var es := UnnamedEntries(kind);
    SmallFits(0, 8);
    SmallFits(1, 8);
    SmallFits(kind, 8);
    SmallFits(5, 8);
    OneName(name);
    SmallFits(|PaddedNames([name])|, 4);
    SmallFits(commitCount, 4);
    SmallFits(2, 4);
    hide Fits, PaddedNames, LoadDir, DirectoryBytes, IsName;
    forall i | 0 <= i < |es|
      ensures EntryFits(es[i])
    {
    }
    TwoTotal(es[0], es[1]);
    assert IsParam(es[1].kind) && es[1].stringQty <= 0;
    DirectoryRoundTrip(file, es, [name], commitCount);
  }

  lemma TwoTotal(e: Entry, e': Entry)
    ensures TotalStrings([e, e']) == e.stringQty + e'.stringQty
  {
    assert [e, e'][..1] == [e] && [e][..0] == [];
    assert TotalStrings([e]) == TotalStrings([]) + e.stringQty;
  }

  lemma OneName(name: Name)
    requires |name| < 100
    ensures |PaddedNames([name])| < 128
  {
    assert [name][..0] == [];
    assert |NameBytes([name])| == |name| + 1;
  }

  // Such a directory is accepted entry by entry and committed, and cannot be loaded.
  method UnnamedRun(file: seq<int>, kind: int, name: Name) returns (dir: FileDir, out: seq<int>)
    requires IsName(name) && |name| < 100 && 0 <= kind < QTY_DIR_ENTRY_TYPES
    ensures fresh(dir) && dir.Valid() && dir.entries == UnnamedEntries(kind) && dir.names == [name]
    ensures LoadDir(file + out) == Err(NotOk)
  {
    hide LoadDir, DirectoryBytes, FileDir.Valid, FileDir.Pending;
    dir := new FileDir();
    var ok := dir.AddEntry(kind, 0, 0, [name], 0, 0);
    assert dir.entries == [Entry(kind, 0, 0, 1, 0, 0)] && dir.names == [name];
    ok := dir.AddEntry(MILI_PARAM, 0, 0, [], 0, 0);
    assert dir.entries == UnnamedEntries(kind) && dir.names == [name];
    out := dir.CommitDir(0);
    UnnamedFails(file, kind, name, 1);
  }
}
