/**
 The directory at the end of a file: its names, padded to four bytes, its entries, six
 eight-byte numbers each, and a header of four numbers, so that it can be found from the end
 of the file. Directory version 3, no state maps, numbers with the low byte first.
 */
module Directory {
  import opened MeshRanges
  import opened IoStore

  // One entry: its type and two modifiers, how many names go with it, and where its record is.
  datatype Entry = Entry(kind: int, modifier1: int, modifier2: int, stringQty: int, offset: int, length: int)

  // A name, without its terminator.
  type Name = seq<int>

  const NODES := 0
  const ELEM_CONNS := 1
  const MILI_PARAM := 5
  const APPLICATION_PARAM := 6
  const TI_PARAM := 9
  const QTY_DIR_ENTRY_TYPES := 10

  // ----- numbers as bytes -----

  function Scale(n: nat): (s: int)
    ensures s > 0
  {
    if n == 0 then 1 else 256 * Scale(n - 1)
  }

  // The low n bytes of x.
  function Bytes(x: int, n: nat): (b: seq<int>)
    ensures |b| == n
    ensures forall i | 0 <= i < n :: 0 <= b[i] < 256
    decreases n
  {
    if n == 0 then [] else [x % 256] + Bytes(x / 256, n - 1)
  }

  // The low byte comes first.
  lemma LowFirst(x: int)
    ensures Bytes(x, 4) == [x % 256, x / 256 % 256, x / 65536 % 256, x / 16777216 % 256]
  {
    var y := x / 256;
    assert y / 256 == x / 65536 && y / 65536 == x / 16777216;
    assert Bytes(x, 4) == [x % 256] + Bytes(y, 3);
    assert Bytes(y, 3) == [y % 256] + Bytes(y / 256, 2);
    assert Bytes(y / 256, 2) == [y / 256 % 256] + Bytes(y / 256 / 256, 1);
    assert Bytes(y / 65536, 1) == [y / 65536 % 256] + [];
  }

  function Unsigned(b: seq<int>): int {
    if b == [] then 0 else b[0] + 256 * Unsigned(b[1..])
  }

  // The number with its sign.
  function Number(b: seq<int>): int {
    var u := Unsigned(b);
    if 2 * u < Scale(|b|) then u else u - Scale(|b|)
  }

  lemma {:induction false} UnsignedBytes(x: int, n: nat)
    ensures 0 <= Unsigned(Bytes(x, n)) < Scale(n)
    ensures exists q :: x == Unsigned(Bytes(x, n)) + q * Scale(n)
    decreases n
  {
    if n == 0 {
      assert x == 0 + x * Scale(0);
    } else {
      UnsignedBytes(x / 256, n - 1);
      var q :| x / 256 == Unsigned(Bytes(x / 256, n - 1)) + q * Scale(n - 1);
      assert Bytes(x, n)[1..] == Bytes(x / 256, n - 1);
      assert 256 * (q * Scale(n - 1)) == q * Scale(n);
      assert x == x % 256 + 256 * (x / 256);
      assert x == Unsigned(Bytes(x, n)) + q * Scale(n);
    }
  }

  predicate Fits(x: int, n: nat) {
    -Scale(n) <= 2 * x < Scale(n)
  }

  // A number comes back from its bytes exactly when it fits in them.
  lemma NumberBytes(x: int, n: nat)
    requires n > 0
    ensures Number(Bytes(x, n)) == x <==> Fits(x, n)
  {
    hide Bytes, Unsigned;
    UnsignedBytes(x, n);
    var u, s := Unsigned(Bytes(x, n)), Scale(n);
    assert s % 2 == 0;
    var q :| x == u + q * s;
    var y := Number(Bytes(x, n));
    assert Fits(y, n);
    if Fits(x, n) {
      SameResidue(x, y, s, q + if 2 * u < s then 0 else 1);
    }
  }

  lemma SameResidue(x: int, y: int, s: int, k: int)
    requires s > 0 && x == y + k * s && -s <= 2 * x < s && -s <= 2 * y < s
    ensures x == y
  {
    Multiple(k, s);
  }

  lemma Multiple(k: int, s: int)
    requires s > 0
    ensures k >= 1 ==> k * s >= s
    ensures k <= -1 ==> k * s <= -s
  {
  }

  // ----- the parts of a directory -----

  function NameBytes(names: seq<Name>): seq<int> {
    if names == [] then [] else NameBytes(names[..|names| - 1]) + names[|names| - 1] + [0]
  }

  // ROUND_UP_INT to four
  function RoundUp(n: nat): (r: nat)
    ensures r % 4 == 0 && n <= r < n + 4
  {
    if n % 4 != 0 then n + (4 - n % 4) else n
  }

  function PaddedNames(names: seq<Name>): (b: seq<int>)
    ensures |b| % 4 == 0
  {
    var b := NameBytes(names);
    b + seq(RoundUp(|b|) - |b|, _ => 0)
  }

  function EntryBytes(e: Entry): (b: seq<int>)
    ensures |b| == 48
  {
    Bytes(e.kind, 8) + Bytes(e.modifier1, 8) + Bytes(e.modifier2, 8)
    + Bytes(e.stringQty, 8) + Bytes(e.offset, 8) + Bytes(e.length, 8)
  }

  function EntriesBytes(es: seq<Entry>): (b: seq<int>)
    ensures |b| == 48 * |es|
  {
    if es == [] then [] else EntriesBytes(es[..|es| - 1]) + EntryBytes(es[|es| - 1])
  }

  function HeaderBytes(namesLen: int, commitCount: int, qtyEntries: int, qtyStates: int): (b: seq<int>)
    ensures |b| == 16
  {
    Bytes(namesLen, 4) + Bytes(commitCount, 4) + Bytes(qtyEntries, 4) + Bytes(qtyStates, 4)
  }

  function DirectoryBytes(es: seq<Entry>, names: seq<Name>, commitCount: int): seq<int> {
    PaddedNames(names) + EntriesBytes(es) + HeaderBytes(|PaddedNames(names)|, commitCount, |es|, 0)
  }

  function TotalStrings(es: seq<Entry>): int {
    if es == [] then 0 else TotalStrings(es[..|es| - 1]) + es[|es| - 1].stringQty
  }

  // valid_dir_entry_data
  predicate ValidEntryData(kind: int, strings: seq<Name>) {
    && NODES <= kind < QTY_DIR_ENTRY_TYPES
    && forall i | 0 <= i < |strings| :: strings[i] != []
  }

  // Ten types of entries, and no empty name.
  lemma ValidMeans(kind: int, strings: seq<Name>)
    ensures ValidEntryData(kind, strings) <==> 0 <= kind <= 9 && [] !in strings
  {
  }

  predicate IsName(s: Name) {
    s != [] && forall i | 0 <= i < |s| :: 0 < s[i] < 256
  }

  predicate IsParam(kind: int) {
    kind == MILI_PARAM || kind == APPLICATION_PARAM || kind == TI_PARAM
  }

  // What add_dir_entry keeps of the entries and the names, given strings without zeros; a
  // parameter has a name.
  predicate Sorted(es: seq<Entry>, names: seq<Name>) {
    && TotalStrings(es) == |names|
    && (forall i | 0 <= i < |names| :: IsName(names[i]))
    && (forall i | 0 <= i < |es| :: es[i].stringQty >= 0)
  }

  predicate EntryFits(e: Entry) {
    && Fits(e.kind, 8) && Fits(e.modifier1, 8) && Fits(e.modifier2, 8)
    && Fits(e.stringQty, 8) && Fits(e.offset, 8) && Fits(e.length, 8)
  }

  // What fits in the numbers of the file.
  predicate Representable(es: seq<Entry>, names: seq<Name>, commitCount: int) {
    && Fits(|PaddedNames(names)|, 4) && Fits(commitCount, 4) && Fits(|es|, 4)
    && forall i | 0 <= i < |es| :: EntryFits(es[i])
  }

  // ----- building and committing -----

  class FileDir {
    var entries: seq<Entry>
    var names: seq<Name>
    var nameData: Store?
    var commitCount: int

    ghost predicate Valid()
      reads this, nameData
    {
      && Sorted(entries, names)
      && (nameData == null ==> names == [])
      && (nameData != null ==> nameData.Valid() && nameData.NothingTakenBack())
    }

    // Nothing has been written yet.
    ghost predicate Pending()
      reads this, nameData
    {
      Valid() && (nameData != null ==> nameData.Waiting() == NameBytes(names))
    }

    constructor ()
      ensures Pending() && entries == [] && names == [] && commitCount == 0 && nameData == null
    {
      entries, names, nameData, commitCount := [], [], null, 0;
    }

    // The names wait in the store.
    ghost predicate NamesWait()
      reads this`names, this`nameData, nameData
    {
      && nameData != null && nameData.Valid() && nameData.NothingTakenBack()
      && nameData.Waiting() == NameBytes(names)
    }

    method AddName(s: Name)
      requires NamesWait()
      modifies this`names, nameData
      ensures NamesWait() && names == old(names) + [s]
    {
      ghost var ns := names;
      var len := nameData.StrDup(s);
      names := names + [s];
      assert names[..|ns|] == ns;
    }

    method AddNames(strings: seq<Name>)
      requires NamesWait()
      modifies this`names, nameData
      ensures NamesWait() && names == old(names) + strings
    {
      hide NamesWait;
      ghost var ns := names;
      for i := 0 to |strings|
        invariant nameData == old(nameData) && NamesWait() && names == ns + strings[..i]
      {
        AddName(strings[i]);
      }
    }

    // add_dir_entry. The strings hold no zeros.
    method AddEntry(kind: int, modifier1: int, modifier2: int, strings: seq<Name>, offset: int, length: int)
      returns (ok: bool)
      requires Pending() && forall i, j | 0 <= i < |strings| && 0 <= j < |strings[i]| :: 0 < strings[i][j] < 256
      modifies this`entries, this`names, this`nameData, nameData
      ensures Pending() && (nameData == old(nameData) || fresh(nameData))
      ensures ok <==> ValidEntryData(kind, strings)
      ensures ok ==>
        && entries == old(entries) + [Entry(kind, modifier1, modifier2, |strings|, offset, length)]
        && names == old(names) + strings
      ensures !ok ==> entries == old(entries) && names == old(names)
    {
      hide Sorted, Store.Valid, Store.NothingTakenBack, Store.Waiting, NameBytes;
      NothingPadded();
      if !ValidEntryData(kind, strings) {
        return false;
      }
      var e := Entry(kind, modifier1, modifier2, |strings|, offset, length);
      StringsAreNames(kind, strings);
      SortedMore(entries, names, e, strings);
      if strings != [] {
        if nameData == null {
          nameData := new Store();
        }
        AddNames(strings);
      } else {
        assert names + strings == names;
      }
      entries := entries + [e];
      return true;
    }

    // commit_dir: what is added to the file.
    method CommitDir(familyCommits: int) returns (out: seq<int>)
      requires Pending() && commitCount == 0
      modifies this`commitCount, nameData
      ensures Valid() && entries == old(entries) && names == old(names)
      ensures out == if entries == [] then [] else DirectoryBytes(entries, names, familyCommits + 1)
      ensures entries != [] ==> commitCount == familyCommits + 1
    {
      if entries == [] {
        return [];
      }
      commitCount := familyCommits + 1;
      var roundQty := 0;
      roundQty, out := OutputNames();
      out := out + EntriesBytes(entries) + HeaderBytes(roundQty, commitCount, |entries|, 0);
    }

    // The names are padded and written.
    method OutputNames() returns (roundQty: nat, out: seq<int>)
      requires Pending()
      modifies nameData
      ensures Valid() && out == PaddedNames(names) && roundQty == |out|
    {
      hide Sorted, Store.Valid, Store.Waiting, NameBytes;
      NothingPadded();
      var charQty := 0;
      if nameData != null {
        charQty := nameData.GetFresh();
      }
      roundQty := RoundUp(charQty);
      if roundQty != charQty {
        var at := nameData.Alloc(roundQty - charQty);
      }
      out := [];
      if nameData != null {
        out := nameData.Output();
      }
      assert NameBytes(names) + [] == NameBytes(names);
    }
  }

  lemma NothingPadded()
    ensures NameBytes([]) == [] == PaddedNames([])
  {
  }

  lemma StringsAreNames(kind: int, strings: seq<Name>)
    requires ValidEntryData(kind, strings)
    requires forall i, j | 0 <= i < |strings| && 0 <= j < |strings[i]| :: 0 < strings[i][j] < 256
    ensures forall i | 0 <= i < |strings| :: IsName(strings[i])
  {
  }

  lemma SortedMore(es: seq<Entry>, names: seq<Name>, e: Entry, strings: seq<Name>)
    requires Sorted(es, names) && e.stringQty == |strings| && forall i | 0 <= i < |strings| :: IsName(strings[i])
    ensures Sorted(es + [e], names + strings)
  {
    assert (es + [e])[..|es|] == es;
  }
}
