/**
 The chained hash table: buckets of doubly linked entries, several of which may have the same
 key. It refines a map from keys to stacks: finding a key gives the last entered of its
 entries, and deleting that one brings the entry before it back.
 */
module HashTable {
  import opened Lists
  import opened Wrappers

  // A key is a string without its terminator.
  type Key = seq<int>

  type Data = Option<int>

  datatype Action = EnterUnique | EnterMerge | EnterAlways | FindEntry

  datatype Status = Ok | EntryExists | EntryNotFound

  // A key that add_shift_hash can be given: not empty, seven-bit characters.
  predicate KeyOk(key: Key) {
    key != [] && forall i | 0 <= i < |key| :: 0 < key[i] < 128
  }

  // ----- the hash -----

  function Shifted(c: int, sidx: nat): int {
    if sidx == 0 then c else 2 * Shifted(c, sidx - 1)
  }

  // The sum over the characters from k on, the first of them shifted by sidx.
  function SumFrom(key: Key, k: nat, sidx: nat): int
    requires k <= |key|
    decreases |key| - k
  {
    if k == |key| then 0 else Shifted(key[k], sidx) + SumFrom(key, k + 1, (sidx + 1) % 8)
  }

  function Hash(key: Key, size: nat): (h: nat)
    requires KeyOk(key) && size > 0
    ensures h < size
  {
    SumNonNegative(key, 1, 1);
    (key[0] + SumFrom(key, 1, 1)) % size
  }

  lemma {:induction false} ShiftNonNegative(c: int, sidx: nat)
    requires c >= 0
    ensures Shifted(c, sidx) >= 0
  {
    if sidx > 0 {
      ShiftNonNegative(c, sidx - 1);
    }
  }

  lemma {:induction false} SumNonNegative(key: Key, k: nat, sidx: nat)
    requires KeyOk(key) && k <= |key|
    ensures SumFrom(key, k, sidx) >= 0
    decreases |key| - k
  {
    if k < |key| {
      ShiftNonNegative(key[k], sidx);
      SumNonNegative(key, k + 1, (sidx + 1) % 8);
    }
  }

  // add_shift_hash
  method AddShiftHash(key: Key, size: nat) returns (bucket: nat)
    requires KeyOk(key) && size > 0
    ensures bucket == Hash(key, size)
  {
    var sum := key[0];
    var sidx: nat, pc: nat := 1, 1;
    while pc < |key|
      invariant 1 <= pc <= |key| && sidx < 8 && key[0] + SumFrom(key, 1, 1) == sum + SumFrom(key, pc, sidx)
    {
      sum := sum + Shifted(key[pc], sidx);
      sidx := (sidx + 1) % 8;
      pc := pc + 1;
    }
    SumNonNegative(key, 1, 1);
    bucket := sum % size;
  }

  const WEIGHTS: seq<int> := [1, 2, 4, 8, 16, 32, 64, 128]

  // Each character with the weight of its place, every eighth again with the first weight.
  function Weighted(key: Key, k: nat): int
    requires k <= |key|
    decreases |key| - k
  {
    if k == |key| then 0 else key[k] * WEIGHTS[k % 8] + Weighted(key, k + 1)
  }

  lemma HashIs(key: Key, size: nat)
    requires KeyOk(key) && size > 0
    ensures Hash(key, size) == Weighted(key, 0) % size
  {
    SumIsWeighted(key, 1);
    assert key[0] * WEIGHTS[0] == key[0];
  }

  lemma {:induction false} SumIsWeighted(key: Key, k: nat)
    requires k <= |key|
    ensures SumFrom(key, k, k % 8) == Weighted(key, k)
    decreases |key| - k
  {
    if k < |key| {
      SumIsWeighted(key, k + 1);
      ShiftedIs(key[k], k % 8);
      assert (k % 8 + 1) % 8 == (k + 1) % 8;
    }
  }

  lemma ShiftedIs(c: int, k: nat)
    requires k < 8
    ensures Shifted(c, k) == c * WEIGHTS[k]
  {
    ShiftedDoubles(c);
  }

  lemma ShiftedDoubles(c: int)
    ensures Shifted(c, 0) == c && Shifted(c, 1) == 2 * c && Shifted(c, 2) == 4 * c && Shifted(c, 3) == 8 * c
    ensures Shifted(c, 4) == 16 * c && Shifted(c, 5) == 32 * c && Shifted(c, 6) == 64 * c && Shifted(c, 7) == 128 * c
  {
    assert Shifted(c, 0) == c;
    assert Shifted(c, 1) == 2 * Shifted(c, 0);
    assert Shifted(c, 2) == 2 * Shifted(c, 1);
    assert Shifted(c, 3) == 2 * Shifted(c, 2);
    assert Shifted(c, 4) == 2 * Shifted(c, 3);
    assert Shifted(c, 5) == 2 * Shifted(c, 4);
    assert Shifted(c, 6) == 2 * Shifted(c, 5);
    assert Shifted(c, 7) == 2 * Shifted(c, 6);
  }

  // ----- what a bucket means: a stack for each key -----

  function StackOf(ps: seq<(Key, Data)>, key: Key): seq<Data> {
    if ps == [] then [] else (if ps[0].0 == key then [ps[0].1] else []) + StackOf(ps[1..], key)
  }

  lemma {:induction false} StackJoin(xs: seq<(Key, Data)>, ys: seq<(Key, Data)>, key: Key)
    ensures StackOf(xs + ys, key) == StackOf(xs, key) + StackOf(ys, key)
    decreases |xs|
  {
    if xs == [] {
      assert xs + ys == ys;
    } else {
      StackJoin(xs[1..], ys, key);
      assert (xs + ys)[1..] == xs[1..] + ys;
      var first := if xs[0].0 == key then [xs[0].1] else [];
      assert StackOf(xs + ys, key) == first + StackOf(xs[1..] + ys, key) && StackOf(xs, key) == first + StackOf(xs[1..], key);
    }
  }

  // The first entry with the key is at k.
  predicate FirstAt(ps: seq<(Key, Data)>, key: Key, k: nat) {
    && k <= |ps| && (k < |ps| ==> ps[k].0 == key)
    && forall j | 0 <= j < k :: ps[j].0 != key
  }

  lemma {:induction false} NoneBefore(ps: seq<(Key, Data)>, key: Key)
    requires forall j | 0 <= j < |ps| :: ps[j].0 != key
    ensures StackOf(ps, key) == []
  {
    if ps != [] {
      NoneBefore(ps[1..], key);
    }
  }

  // The stack of a key begins with its first entry.
  lemma FirstIsTop(ps: seq<(Key, Data)>, key: Key, k: nat)
    requires FirstAt(ps, key, k)
    ensures StackOf(ps, key) == if k == |ps| then [] else [ps[k].1] + StackOf(ps[k + 1..], key)
  {
    NoneBefore(ps[..k], key);
    StackJoin(ps[..k], ps[k..], key);
    assert ps == ps[..k] + ps[k..];
    if k < |ps| {
      assert ps[k..][1..] == ps[k + 1..];
    }
  }

  lemma OneStack(p: (Key, Data), key: Key)
    ensures StackOf([p], key) == if p.0 == key then [p.1] else []
  {
    assert [p][1..] == [];
  }

  // A new entry, before the first of its key or at the front.
  lemma EnteredStack(ps: seq<(Key, Data)>, at: nat, p: (Key, Data), key: Key)
    requires at <= |ps| && forall j | 0 <= j < at :: ps[j].0 != p.0
    ensures StackOf(ps[..at] + [p] + ps[at..], key) ==
      (if p.0 == key then [p.1] else []) + StackOf(ps, key)
  {
    StackJoin(ps[..at] + [p], ps[at..], key);
    StackJoin(ps[..at], [p], key);
    StackJoin(ps[..at], ps[at..], key);
    OneStack(p, key);
    assert ps == ps[..at] + ps[at..];
    if p.0 == key {
      NoneBefore(ps[..at], key);
    }
  }

  // How many entries of the key stand before place k.
  function Above(ps: seq<(Key, Data)>, k: nat, key: Key): nat
    requires k <= |ps|
  {
    |StackOf(ps[..k], key)|
  }

  // A stack without its datum i.
  function Without(s: seq<Data>, i: nat): seq<Data> {
    if i < |s| then s[..i] + s[i + 1..] else s
  }

  // An entry taken out: its datum goes from its place in the stack of its key, and the other
  // stacks stay.
  lemma TakenOut(ps: seq<(Key, Data)>, k: nat, key: Key)
    requires k < |ps|
    ensures ps[k].0 != key ==> StackOf(ps[..k] + ps[k + 1..], key) == StackOf(ps, key)
    ensures ps[k].0 == key ==>
      && Above(ps, k, key) < |StackOf(ps, key)| && StackOf(ps, key)[Above(ps, k, key)] == ps[k].1
      && StackOf(ps[..k] + ps[k + 1..], key) == Without(StackOf(ps, key), Above(ps, k, key))
    ensures FirstAt(ps, key, k) ==> Above(ps, k, key) == 0
  {
    var p := ps[k];
    StackJoin(ps[..k], ps[k + 1..], key);
    StackJoin(ps[..k], [p] + ps[k + 1..], key);
    StackJoin([p], ps[k + 1..], key);
    OneStack(p, key);
    assert ps == ps[..k] + ([p] + ps[k + 1..]);
    if FirstAt(ps, key, k) {
      NoneBefore(ps[..k], key);
    }
    hide StackOf, FirstAt, Without;
    var s, t := StackOf(ps[..k], key), StackOf(ps[k + 1..], key);
    if p.0 == key {
      WithoutMiddle(s, p.1, t);
    } else {
      assert [] + t == t;
    }
  }

  lemma WithoutMiddle(s: seq<Data>, d: Data, t: seq<Data>)
    ensures |s| < |s + ([d] + t)| && (s + ([d] + t))[|s|] == d && Without(s + ([d] + t), |s|) == s + t
  {
  }

  // The data of an entry replaced.
  lemma Replaced(ps: seq<(Key, Data)>, k: nat, d: Data, key: Key)
    requires k < |ps|
    ensures ps[k].0 != key ==> StackOf(ps[k := (ps[k].0, d)], key) == StackOf(ps, key)
    ensures FirstAt(ps, key, k) ==>
      StackOf(ps, key) != [] && StackOf(ps[k := (ps[k].0, d)], key) == [d] + StackOf(ps, key)[1..]
  {
    var p, q := ps[k], (ps[k].0, d);
    assert ps == ps[..k] + ([p] + ps[k + 1..]) && ps[k := q] == ps[..k] + ([q] + ps[k + 1..]);
    StackJoin(ps[..k], [p] + ps[k + 1..], key);
    StackJoin(ps[..k], [q] + ps[k + 1..], key);
    StackJoin([p], ps[k + 1..], key);
    StackJoin([q], ps[k + 1..], key);
    OneStack(p, key);
    OneStack(q, key);
    if FirstAt(ps, key, k) {
      NoneBefore(ps[..k], key);
    }
  }

  // ----- the table -----

  class HashEntry {
    const key: Key
    var data: Data
    var next: HashEntry?
    var prev: HashEntry?

    constructor (key: Key)
      ensures this.key == key && data == None && next == null && prev == null
    {
      this.key := key;
      data, next, prev := None, null, null;
    }
  }

  function Nth(es: seq<HashEntry>, k: int): HashEntry? {
    if 0 <= k < |es| then es[k] else null
  }

  predicate LinkedAt(es: seq<HashEntry>, k: nat)
    requires k < |es|
    reads es`next, es`prev
  {
    es[k].next == Nth(es, k + 1) && es[k].prev == Nth(es, k - 1)
  }

  // ----- INSERT_ELEM, INSERT_BEFORE, DELETE_ELEM, on one list -----

  ghost predicate Linked(es: seq<HashEntry>, head: HashEntry?)
    reads es`next, es`prev
  {
    head == Nth(es, 0) && Distinct(es) && forall k | 0 <= k < |es| :: LinkedAt(es, k)
  }

  method InsertElem(e: HashEntry, head: HashEntry?, ghost es: seq<HashEntry>)
    requires Linked(es, head) && e !in es && e.next == null && e.prev == null
    modifies e`next, e`prev, es`next, es`prev
    ensures Linked([e] + es, e)
  {
    DistinctWith(es, 0, e);
    assert es[..0] + [e] + es[0..] == [e] + es;
    if head != null {
      Apart(es, 0);
      e.next := head;
      head.prev := e;
    }
    ghost var es' := [e] + es;
    forall j | 0 <= j < |es'|
      ensures LinkedAt(es', j)
    {
      if j > 0 {
        assert es'[j] == es[j - 1] && old(LinkedAt(es, j - 1));
      }
    }
  }

  method InsertBefore(e: HashEntry, x: HashEntry, head: HashEntry?, ghost es: seq<HashEntry>, ghost k: nat)
    returns (head': HashEntry?)
    requires Linked(es, head) && e !in es && e.next == null && e.prev == null && k < |es| && x == es[k]
    modifies e`next, e`prev, es`next, es`prev
    ensures Linked(es[..k] + [e] + es[k..], head')
  {
    hide Distinct;
    DistinctWith(es, k, e);
    Apart(es, k);
    if k > 0 {
      Apart(es, k - 1);
    }
    assert LinkedAt(es, k);
    head' := head;
    if x.prev != null {
      x.prev.next := e;
      e.prev := x.prev;
    } else {
      head' := e;
    }
    e.next := x;
    x.prev := e;
    ghost var es' := es[..k] + [e] + es[k..];
    forall j | 0 <= j < |es'|
      ensures LinkedAt(es', j)
    {
      if j != k {
        var o := if j < k then j else j - 1;
        assert es'[j] == es[o] && old(LinkedAt(es, o));
        assert o != k - 1 ==> es[o].next == old(es[o].next);
        assert o != k ==> es[o].prev == old(es[o].prev);
      }
    }
  }

  method DeleteElem(x: HashEntry, head: HashEntry?, ghost es: seq<HashEntry>, ghost k: nat) returns (head': HashEntry?)
    requires Linked(es, head) && k < |es| && x == es[k]
    modifies es`next, es`prev
    ensures Linked(es[..k] + es[k + 1..], head')
  {
    hide Distinct;
    DistinctWithout(es, k);
    Apart(es, 0);
    if k > 0 {
      Apart(es, k - 1);
    }
    if k + 1 < |es| {
      Apart(es, k + 1);
    }
    assert LinkedAt(es, k);
    head' := head;
    if head == x {
      head' := x.next;
    } else {
      x.prev.next := x.next;
    }
    if x.next != null {
      x.next.prev := x.prev;
    }
    ghost var es' := es[..k] + es[k + 1..];
    forall j | 0 <= j < |es'|
      ensures LinkedAt(es', j)
    {
      var o := if j < k then j else j + 1;
      assert es'[j] == es[o] && old(LinkedAt(es, o)) && old(LinkedAt(es, k));
      assert o != k - 1 ==> es[o].next == old(es[o].next);
      assert o != k + 1 ==> es[o].prev == old(es[o].prev);
    }
  }

  // The entries of bucket b.
  ghost predicate ChainGood(es: seq<HashEntry>, head: HashEntry?, b: nat, size: nat)
    requires size > 0
    reads es`next, es`prev
  {
    Linked(es, head) && InBucket(es, b, size)
  }

  ghost predicate InBucket(es: seq<HashEntry>, b: nat, size: nat)
    requires size > 0
  {
    forall k | 0 <= k < |es| :: KeyOk(es[k].key) && Hash(es[k].key, size) == b
  }

  lemma InBucketWith(es: seq<HashEntry>, k: nat, e: HashEntry, b: nat, size: nat)
    requires size > 0 && k <= |es| && InBucket(es, b, size) && KeyOk(e.key) && Hash(e.key, size) == b
    ensures InBucket(es[..k] + [e] + es[k..], b, size)
  {
  }

  lemma InBucketWithout(es: seq<HashEntry>, k: nat, b: nat, size: nat)
    requires size > 0 && k < |es| && InBucket(es, b, size)
    ensures InBucket(es[..k] + es[k + 1..], b, size)
  {
  }

  function PairsOf(es: seq<HashEntry>): (ps: seq<(Key, Data)>)
    reads es`data
    ensures |ps| == |es| && forall k | 0 <= k < |es| :: ps[k] == (es[k].key, es[k].data)
  {
    if es == [] then []
    else
      var e := es[|es| - 1];
      PairsOf(es[..|es| - 1]) + [(e.key, e.data)]
  }

  // What an action with data leaves of the stack of its key.
  function After(op: Action, s: seq<Data>, d: Data): (Status, seq<Data>) {
    match op
    case EnterUnique => if s == [] then (Ok, [d]) else (EntryExists, s)
    case EnterMerge => if s == [] then (Ok, [d]) else (EntryExists, [d] + s[1..])
    case EnterAlways => (Ok, [d] + s)
    case FindEntry => if s == [] then (EntryNotFound, s) else (Ok, [d] + s[1..])
  }

  // The modes, told apart by what they leave: a datum is put on a stack only by the entering modes, and
  // on one that is not empty only by the last of them; the others find or replace the top.
  lemma ModesMean(op: Action, s: seq<Data>, d: Data)
    ensures
      var (status, s') := After(op, s, d);
      && (status == Ok <==> op.EnterAlways? || (op.FindEntry? <==> s != []))
      && (status == EntryExists <==> (op.EnterUnique? || op.EnterMerge?) && s != [])
      && (status == EntryNotFound <==> op.FindEntry? && s == [])
      && |s'| == |s| + (if op.EnterAlways? || (!op.FindEntry? && s == []) then 1 else 0)
      && (if status == Ok || op.EnterMerge? then s' != [] && s'[0] == d else s' == s)
      && (if op.EnterAlways? then s'[1..] == s else s' != [] && s != [] ==> s'[1..] == s[1..])
  {
  }

  class Table {
    const buckets: array<HashEntry?>
    var qtyEntries: nat
    ghost var chains: seq<seq<HashEntry>>

    ghost function Entries(): set<HashEntry>
      reads this`chains
    {
      set b, k | 0 <= b < |chains| && 0 <= k < |chains[b]| :: chains[b][k]
    }

    ghost predicate Valid()
      reads this, buckets, Entries()`next, Entries()`prev
    {
      && 0 < buckets.Length == |chains| && qtyEntries == Count(chains)
      && forall b | 0 <= b < |chains| :: ChainGood(chains[b], buckets[b], b, buckets.Length)
    }

    // The data entered under a key, the last first.
    ghost function Stack(key: Key): seq<Data>
      requires Valid() && KeyOk(key)
      reads this, buckets, Entries()
    {
      StackOf(PairsOf(chains[Hash(key, buckets.Length)]), key)
    }

    // The table, but for the count of entries.
    ghost predicate Chained()
      reads this`chains, buckets, Entries()`next, Entries()`prev
    {
      && 0 < buckets.Length == |chains|
      && forall b | 0 <= b < |chains| :: ChainGood(chains[b], buckets[b], b, buckets.Length)
    }

    // htable_create
    constructor (size: nat)
      requires size > 0
      ensures Valid() && fresh(buckets) && buckets.Length == size && Entries() == {}
      ensures forall key | KeyOk(key) :: Stack(key) == []
    {
      buckets := new HashEntry?[size](_ => null);
      qtyEntries := 0;
      chains := seq(size, _ => []);
      new;
      EmptyCount(size);
    }

    // A new entry for a key whose hash is b: at the front, or before the entry x at place k.
    method EnterAt(e: HashEntry, x: HashEntry?, b: nat, ghost k: nat)
      requires Chained() && b < buckets.Length && e !in Entries() && (x == null ==> k == 0)
      requires x != null ==> k < |chains[b]| && x == chains[b][k]
      requires e.next == null && e.prev == null && KeyOk(e.key) && Hash(e.key, buckets.Length) == b
      modifies this`chains, buckets, e`next, e`prev, Entries()`next, Entries()`prev
      ensures Chained() && chains == old(chains)[b := old(chains[b])[..k] + [e] + old(chains[b])[k..]]
    {
      hide Linked, KeyOk, Hash, InBucket;
      ghost var es := chains[b];
      ghost var entries := Entries();
      InBucketWith(es, k, e, b, buckets.Length);
      assert forall j | 0 <= j < |es| :: es[j] in entries;
      OtherChains(chains, buckets[..], b);
      if x == null {
        InsertElem(e, buckets[b], es);
        buckets[b] := e;
        assert es[..0] + [e] + es[0..] == [e] + es;
      } else {
        var head := InsertBefore(e, x, buckets[b], es, k);
        buckets[b] := head;
      }
      chains := chains[b := es[..k] + [e] + es[k..]];
    }

    method RemoveAt(x: HashEntry, b: nat, ghost k: nat)
      requires Chained() && b < buckets.Length && k < |chains[b]| && x == chains[b][k]
      modifies this`chains, buckets, Entries()`next, Entries()`prev
      ensures Chained() && chains == old(chains)[b := old(chains[b])[..k] + old(chains[b])[k + 1..]]
    {
      hide Linked, InBucket;
      ghost var es := chains[b];
      ghost var entries := Entries();
      InBucketWithout(es, k, b, buckets.Length);
      assert forall j | 0 <= j < |es| :: es[j] in entries;
      OtherChains(chains, buckets[..], b);
      var head := DeleteElem(x, buckets[b], es, k);
      buckets[b] := head;
      chains := chains[b := es[..k] + es[k + 1..]];
    }

    // The first entry of bucket b with the key, if there is one.
    method FirstEntry(key: Key, b: nat) returns (e: HashEntry?, ghost k: nat)
      requires Chained() && b < buckets.Length
      ensures k <= |chains[b]| && e == Nth(chains[b], k) && (e != null ==> e.key == key) && FirstAt(PairsOf(chains[b]), key, k)
    {
      hide PairsOf;
      e := buckets[b];
      k := 0;
      ghost var es := chains[b];
      while e != null
        invariant k <= |es| && e == Nth(es, k)
        invariant forall j | 0 <= j < k :: es[j].key != key
        decreases |es| - k
      {
        if e.key == key {
          break;
        }
        assert LinkedAt(es, k);
        e, k := e.next, k + 1;
      }
    }

    // The pairs of bucket b.
    ghost function Pairs(b: nat): seq<(Key, Data)>
      requires b < |chains|
      reads this`chains, Entries()`data
    {
      PairsOf(chains[b])
    }

    // A new entry without data, at the front of its bucket or before the entry x.
    method NewEntry(key: Key, x: HashEntry?, b: nat, ghost at: nat) returns (e: HashEntry)
      requires Valid() && KeyOk(key) && b == Hash(key, buckets.Length) && (x == null ==> at == 0)
      requires x != null ==> at < |chains[b]| && x == chains[b][at]
      modifies this`chains, this`qtyEntries, buckets, Entries()`next, Entries()`prev
      ensures Valid() && fresh(e) && e.key == key && forall y | y in Entries() :: y == e || y in old(Entries())
      ensures |chains| == |old(chains)|
      ensures forall c: nat | c < |chains| && c != b :: chains[c] == old(chains)[c] && Pairs(c) == old(Pairs(c))
      ensures chains[b] == old(chains)[b][..at] + [e] + old(chains)[b][at..]
      ensures Pairs(b) == old(Pairs(b))[..at] + [(key, None)] + old(Pairs(b))[at..]
    {
      hide Linked, PairsOf, Hash, Count;
      ghost var es, ps, entries := chains[b], Pairs(b), Entries();
      e := new HashEntry(key);
      CountUpdate(chains, b, es[..at] + [e] + es[at..]);
      EnterAt(e, x, b, at);
      qtyEntries := qtyEntries + 1;
      SamePairs(es[..at] + [e] + es[at..], ps[..at] + [(key, None)] + ps[at..]);
    }

    // htable_search. `at' is the place of the entry found or entered.
    method Search(key: Key, op: Action) returns (status: Status, entry: HashEntry?, ghost at: nat)
      requires Valid() && KeyOk(key)
      modifies this`chains, this`qtyEntries, buckets, Entries()`next, Entries()`prev
      ensures Valid() && forall x | x in Entries() :: x in old(Entries()) || fresh(x)
      ensures
        var b := Hash(key, buckets.Length);
        var ps := old(Pairs(Hash(key, buckets.Length)));
        var enters := op.EnterAlways? || (!op.FindEntry? && StackOf(ps, key) == []);
        && status == After(op, StackOf(ps, key), None).0
        && |chains| == |old(chains)|
        && (forall c: nat | c < |chains| && c != b :: chains[c] == old(chains)[c] && Pairs(c) == old(Pairs(c)))
        && (enters ==> at <= |ps| && Pairs(b) == ps[..at] + [(key, None)] + ps[at..])
        && (!enters ==> Pairs(b) == ps)
        && (entry == null <==> (op.EnterUnique? || op.FindEntry?) && !enters && !(op.FindEntry? && StackOf(ps, key) != []))
        && (entry != null ==> entry.key == key && at < |chains[b]| && entry == chains[b][at] && FirstAt(Pairs(b), key, at))
    {
      hide Linked, PairsOf, FirstAt, Hash, StackOf, Count;
      var b := AddShiftHash(key, buckets.Length);
      var phte, k := FirstEntry(key, b);
      ghost var ps := Pairs(b);
      FirstIsTop(ps, key, k);
      status, entry, at := Ok, phte, k;
      if op.FindEntry? {
        status := if phte == null then EntryNotFound else Ok;
        return;
      }
      if phte != null && !op.EnterAlways? {
        status := EntryExists;
        entry := if op.EnterUnique? then null else phte;
        return;
      }
      at := if phte == null then 0 else k;
      entry := NewEntry(key, phte, b, at);
      EnteredFirst(ps, key, k, at);
    }

    // htable_add_entry_data: the data of the entry found or entered, if there is one.
    method AddEntryData(key: Key, op: Action, d: int) returns (status: Status)
      requires Valid() && KeyOk(key)
      modifies this`chains, this`qtyEntries, buckets, Entries()
      ensures Valid() && forall x | x in Entries() :: x in old(Entries()) || fresh(x)
      ensures status == After(op, old(Stack(key)), Some(d)).0
      ensures forall other | KeyOk(other) ::
        Stack(other) == if other == key then After(op, old(Stack(key)), Some(d)).1 else old(Stack(other))
    {
      hide Linked, PairsOf, FirstAt, Hash, StackOf;
      ghost var b := Hash(key, buckets.Length);
      ghost var ps := Pairs(b);
      var phte: HashEntry?;
      ghost var at: nat;
      status, phte, at := Search(key, op);
      ghost var qs := Pairs(b);
      if phte != null {
        SetData(phte, Some(d), b, at);
      }
      forall other | KeyOk(other)
        ensures Stack(other) == if other == key then After(op, old(Stack(key)), Some(d)).1 else old(Stack(other))
      {
        if Hash(other, buckets.Length) == b {
          DataAdded(ps, qs, Pairs(b), key, op, Some(d), at, phte != null, other);
        }
      }
    }

    // phte->data = entry_data
    method SetData(e: HashEntry, d: Data, ghost b: nat, ghost k: nat)
      requires Chained() && b < |chains| && k < |chains[b]| && e == chains[b][k]
      modifies e`data
      ensures Chained() && Pairs(b) == old(Pairs(b))[k := (e.key, d)]
      ensures forall c: nat | c < |chains| && c != b :: Pairs(c) == old(Pairs(c))
    {
      hide PairsOf, Hash;
      OtherChains(chains, buckets[..], b);
      ghost var es, ps := chains[b], Pairs(b);
      Apart(es, k);
      e.data := d;
      SamePairs(es, ps[k := (e.key, d)]);
    }

    // htable_del_entry
    method DelEntry(e: HashEntry, ghost k: nat)
      requires Valid() && KeyOk(e.key)
      requires var b := Hash(e.key, buckets.Length); k < |chains[b]| && e == chains[b][k]
      modifies this`chains, this`qtyEntries, buckets, Entries()`next, Entries()`prev
      ensures Valid() && Entries() <= old(Entries())
      ensures forall other | KeyOk(other) && other != e.key :: Stack(other) == old(Stack(other))
      ensures
        var i := old(Above(Pairs(Hash(e.key, buckets.Length)), k, e.key));
        && i < |old(Stack(e.key))| && old(Stack(e.key))[i] == e.data
        && Stack(e.key) == Without(old(Stack(e.key)), i)
        && (old(FirstAt(Pairs(Hash(e.key, buckets.Length)), e.key, k)) ==> i == 0)
    {
      hide Linked, PairsOf, FirstAt, StackOf, Above, Without, KeyOk, Hash, Count, ChainGood;
      var bucket := AddShiftHash(e.key, buckets.Length);
      ghost var ps := Pairs(bucket);
      CountUpdate(chains, bucket, chains[bucket][..k] + chains[bucket][k + 1..]);
      RemoveEntry(e, bucket, k);
      qtyEntries := qtyEntries - 1;
      forall other | KeyOk(other) && Hash(other, buckets.Length) == bucket
        ensures ps[k].0 != other ==> Stack(other) == StackOf(ps, other)
        ensures ps[k].0 == other ==>
          && Above(ps, k, other) < |StackOf(ps, other)| && StackOf(ps, other)[Above(ps, k, other)] == ps[k].1
          && Stack(other) == Without(StackOf(ps, other), Above(ps, k, other))
        ensures FirstAt(ps, other, k) ==> Above(ps, k, other) == 0
      {
        TakenOut(ps, k, other);
      }
    }

    method RemoveEntry(x: HashEntry, b: nat, ghost k: nat)
      requires Chained() && b < buckets.Length && k < |chains[b]| && x == chains[b][k]
      modifies this`chains, buckets, Entries()`next, Entries()`prev
      ensures Chained() && chains == old(chains)[b := old(chains[b])[..k] + old(chains[b])[k + 1..]]
      ensures Pairs(b) == old(Pairs(b))[..k] + old(Pairs(b))[k + 1..] && Entries() <= old(Entries())
      ensures forall c: nat | c < |chains| && c != b :: Pairs(c) == old(Pairs(c))
    {
      hide Linked, PairsOf, Hash;
      ghost var es, ps, entries := chains[b], Pairs(b), Entries();
      RemoveAt(x, b, k);
      SamePairs(es[..k] + es[k + 1..], ps[..k] + ps[k + 1..]);
    }

    // All the data, bucket by bucket.
    ghost function AllData(n: nat): seq<Data>
      requires n <= |chains|
      reads this`chains, Entries()`data
    {
      if n == 0 then [] else AllData(n - 1) + DataOf(Pairs(n - 1))
    }

    twostate lemma SameData(n: nat)
      requires n <= |chains| && chains == old(chains) && forall e | e in Entries() :: e.data == old(e.data)
      ensures AllData(n) == old(AllData(n))
    {
      if n > 0 {
        SameData(n - 1);
        var es := chains[n - 1];
        assert forall k | 0 <= k < |es| :: es[k] in Entries();
        assert Pairs(n - 1) == old(Pairs(n - 1));
      }
    }

    // Finding a key gives the data entered last.
    method Find(key: Key) returns (d: seq<Data>)
      requires Valid() && KeyOk(key)
      modifies this`chains, this`qtyEntries, buckets, Entries()`next, Entries()`prev
      ensures Valid() && forall other | KeyOk(other) :: Stack(other) == old(Stack(other))
      ensures d == if old(Stack(key)) == [] then [] else [old(Stack(key))[0]]
    {
      hide Linked, PairsOf, Hash, StackOf;
      var status, phte, at := Search(key, FindEntry);
      if phte == null {
        return [];
      }
      FirstIsTop(Pairs(Hash(key, buckets.Length)), key, at);
      return [phte.data];
    }

    // Parameters are entered one by one, each before the earlier ones of its name.
    method EnterAll(ps: seq<(Key, int)>)
      requires Valid() && forall i | 0 <= i < |ps| :: KeyOk(ps[i].0)
      modifies this`chains, this`qtyEntries, buckets, Entries()
      ensures Valid() && forall x | x in Entries() :: x in old(Entries()) || fresh(x)
      ensures forall key | KeyOk(key) :: Stack(key) == Entered(ps, key) + old(Stack(key))
    {
      hide Linked, PairsOf, Hash, StackOf, Chained, ChainGood, Entered, KeyOk;
      NoneEntered();
      ghost var before := imap key | KeyOk(key) :: Stack(key);
      for i := 0 to |ps|
        invariant Valid() && forall x | x in Entries() :: x in old(Entries()) || fresh(x)
        invariant Grown(ps[..i], before)
      {
        EnterNext(ps, i, before);
      }
      assert ps[..|ps|] == ps;
    }

    ghost predicate Grown(ps: seq<(Key, int)>, before: imap<Key, seq<Data>>)
      requires Valid()
      reads this, buckets, Entries()
    {
      forall key | KeyOk(key) :: key in before && Stack(key) == Entered(ps, key) + before[key]
    }

    method EnterNext(ps: seq<(Key, int)>, i: nat, ghost before: imap<Key, seq<Data>>)
      requires Valid() && i < |ps| && KeyOk(ps[i].0) && Grown(ps[..i], before)
      modifies this`chains, this`qtyEntries, buckets, Entries()
      ensures Valid() && forall x | x in Entries() :: x in old(Entries()) || fresh(x)
      ensures Grown(ps[..i + 1], before)
    {
      hide Linked, PairsOf, Hash, StackOf, Chained, ChainGood, Entered, KeyOk;
      var status := AddEntryData(ps[i].0, EnterAlways, ps[i].1);
      forall key | KeyOk(key)
        ensures Stack(key) == Entered(ps[..i + 1], key) + before[key]
      {
        EnteredOver(ps, i, key, before[key]);
      }
    }

    // The data of one chain, from place j of the array on.
    method CopyChain(b: nat, pv: array<Data>, start: nat) returns (j: nat)
      requires Chained() && b < buckets.Length && start + |chains[b]| <= pv.Length
      modifies pv
      ensures j == start + |chains[b]| && pv[..j] == old(pv[..start]) + DataOf(Pairs(b))
    {
      hide PairsOf, Linked;
      ghost var es, ds := chains[b], DataOf(Pairs(b));
      ghost var k := 0;
      j := start;
      assert ChainGood(es, buckets[b], b, buckets.Length);
      LinkedHead(es, buckets[b]);
      var phte := buckets[b];
      while phte != null
        invariant k <= |es| && phte == Nth(es, k) && j == start + k
        invariant pv[..j] == old(pv[..start]) + ds[..k]
        decreases |es| - k
      {
        LinkedNext(es, buckets[b], k);
        pv[j] := phte.data;
        j := j + 1;
        phte, k := phte.next, k + 1;
      }
      assert ds[..k] == ds;
    }

    lemma NoData()
      ensures AllData(0) == []
    {
    }

    // The bucket after those whose data fill the array up to place j.
    method CopyBucket(i: nat, pv: array<Data>, j: nat) returns (j': nat)
      requires Valid() && i < buckets.Length && j == Count(chains[..i]) <= pv.Length == qtyEntries
      requires pv[..j] == AllData(i)
      modifies pv
      ensures j' == Count(chains[..i + 1]) <= pv.Length && pv[..j'] == AllData(i + 1)
    {
      hide PairsOf, Linked, Count, ChainGood;
      CountPrefix(chains, i + 1);
      CountMore(chains, i);
      j' := CopyChain(i, pv, j);
      SameData(i);
    }

    // The pairs of all buckets, and the stacks of several keys.
    ghost function AllPairs(n: nat): seq<(Key, Data)>
      requires n <= |chains|
      reads this`chains, Entries()`data
    {
      if n == 0 then [] else AllPairs(n - 1) + Pairs(n - 1)
    }

    ghost function Stacks(keys: seq<Key>): seq<Data>
      requires Valid() && forall key | key in keys :: KeyOk(key)
      reads this, buckets, Entries()
    {
      if keys == [] then [] else Stack(keys[0]) + Stacks(keys[1..])
    }

    lemma {:induction false} PairsData(n: nat)
      requires n <= |chains|
      ensures AllData(n) == DataOf(AllPairs(n))
      decreases n
    {
      if n > 0 {
        PairsData(n - 1);
      }
    }

    // The entries of a key are all in one bucket.
    lemma {:induction false} StackInAll(n: nat, key: Key)
      requires Valid() && KeyOk(key) && n <= |chains|
      ensures StackOf(AllPairs(n), key) == if Hash(key, buckets.Length) < n then Stack(key) else []
      decreases n
    {
      hide *;
      PairsNext(n);
      if n == 0 {
        NoStack(key);
      } else {
        StackInAll(n - 1, key);
        var x, y := AllPairs(n - 1), Pairs(n - 1);
        assert StackOf(AllPairs(n), key) == StackOf(x, key) + StackOf(y, key) by {
          StackJoin(x, y, key);
        }
        InOneBucket(n - 1, key);
        Nothing(StackOf(x, key));
        Nothing(StackOf(y, key));
      }
    }

    lemma PairsNext(n: nat)
      requires n <= |chains|
      ensures AllPairs(n) == if n == 0 then [] else AllPairs(n - 1) + Pairs(n - 1)
    {
    }

    lemma InOneBucket(b: nat, key: Key)
      requires Valid() && KeyOk(key) && b < |chains|
      ensures StackOf(Pairs(b), key) == if Hash(key, buckets.Length) == b then Stack(key) else []
    {
      hide StackOf, Linked, Hash, KeyOk, Count, PairsOf;
      assert ChainGood(chains[b], buckets[b], b, buckets.Length);
      if Hash(key, buckets.Length) != b {
        NoneBefore(Pairs(b), key);
      }
    }

    lemma {:induction false} StacksInAll(keys: seq<Key>)
      requires Valid() && forall key | key in keys :: KeyOk(key)
      ensures StacksIn(AllPairs(|chains|), keys) == Stacks(keys)
      decreases |keys|
    {
      if keys != [] {
        StacksInAll(keys[1..]);
        StackInAll(|chains|, keys[0]);
      }
    }

    lemma {:induction false} KeysOfPairs(n: nat, keys: seq<Key>)
      requires n <= |chains| && forall e | e in Entries() :: e.key in keys
      ensures forall p | p in AllPairs(n) :: p.0 in keys
      decreases n
    {
      if n > 0 {
        KeysOfPairs(n - 1, keys);
        forall p | p in Pairs(n - 1)
          ensures p.0 in keys
        {
          var k :| 0 <= k < |chains[n - 1]| && Pairs(n - 1)[k] == p;
          assert chains[n - 1][k] in Entries();
        }
      }
    }

    // What htable_get_data gives is what the stacks of all keys hold, each datum as often.
    lemma AllDataIs(keys: seq<Key>)
      requires Valid() && Distinct(keys) && forall key | key in keys :: KeyOk(key)
      requires forall e | e in Entries() :: e.key in keys
      ensures multiset(AllData(|chains|)) == multiset(Stacks(keys))
    {
      PairsData(|chains|);
      KeysOfPairs(|chains|, keys);
      StacksHold(AllPairs(|chains|), keys);
      StacksInAll(keys);
    }

    // htable_get_data: the data of every entry, once each, in an array that they fill.
    method GetData() returns (pv: array<Data>, numEntries: nat)
      requires Valid()
      ensures fresh(pv) && pv.Length == qtyEntries == numEntries && pv[..] == AllData(|chains|)
    {
      hide PairsOf, Linked, Count, AllData, ChainGood;
      pv := new Data[qtyEntries](_ => None);
      var j := 0;
      NoCount();
      NoData();
      assert chains[..0] == [];
      for i := 0 to buckets.Length
        invariant j == Count(chains[..i]) <= pv.Length && pv[..j] == AllData(i)
      {
        j := CopyBucket(i, pv, j);
      }
      assert chains[..|chains|] == chains;
      numEntries := qtyEntries;
      assert pv[..j] == pv[..];
    }
  }

  // The stacks of several keys, one after another.
  function StacksIn(ps: seq<(Key, Data)>, keys: seq<Key>): seq<Data> {
    if keys == [] then [] else StackOf(ps, keys[0]) + StacksIn(ps, keys[1..])
  }

  // One more pair is one more datum in the stack of its key.
  lemma {:induction false} StacksNext(ps: seq<(Key, Data)>, keys: seq<Key>)
    requires ps != [] && Distinct(keys)
    ensures multiset(StacksIn(ps, keys)) ==
      multiset(if ps[0].0 in keys then [ps[0].1] else []) + multiset(StacksIn(ps[1..], keys))
    decreases |keys|
  {
    if keys != [] {
      var rest := keys[1..];
      DistinctRest(keys);
      StacksNext(ps, rest);
      var d := ps[0].1;
      var one := if ps[0].0 == keys[0] then [d] else [];
      var more := if ps[0].0 in rest then [d] else [];
      assert StackOf(ps, keys[0]) == one + StackOf(ps[1..], keys[0]);
      hide StackOf, Distinct;
      OneMore(one, StackOf(ps[1..], keys[0]), StacksIn(ps, rest), more, StacksIn(ps[1..], rest));
      assert ps[0].0 in keys <==> ps[0].0 == keys[0] || ps[0].0 in rest;
    }
  }

  lemma DistinctRest(keys: seq<Key>)
    requires Distinct(keys) && keys != []
    ensures Distinct(keys[1..]) && keys[0] !in keys[1..]
  {
    var rest := keys[1..];
    assert forall i | 0 <= i < |rest| :: rest[i] == keys[i + 1];
  }

  lemma OneMore(one: seq<Data>, s: seq<Data>, r: seq<Data>, more: seq<Data>, r': seq<Data>)
    requires multiset(r) == multiset(more) + multiset(r')
    ensures multiset((one + s) + r) == multiset(one + more) + multiset(s + r')
  {
  }

  lemma Nothing(s: seq<Data>)
    ensures [] + s == s == s + []
  {
  }

  lemma NoStack(key: Key)
    ensures StackOf([], key) == []
  {
  }

  lemma NoStacks(keys: seq<Key>)
    ensures StacksIn([], keys) == []
  {
  }

  // The stacks of all keys hold each datum as often as the pairs do.
  lemma {:induction false} StacksHold(ps: seq<(Key, Data)>, keys: seq<Key>)
    requires Distinct(keys) && forall p | p in ps :: p.0 in keys
    ensures multiset(DataOf(ps)) == multiset(StacksIn(ps, keys))
    decreases |ps|
  {
    if ps == [] {
      NoStacks(keys);
    } else {
      hide *;
      StacksHold(ps[1..], keys);
      StacksNext(ps, keys);
      DataNext(ps);
      assert ps[0] in ps;
    }
  }

  lemma DataNext(ps: seq<(Key, Data)>)
    requires ps != []
    ensures multiset(DataOf(ps)) == multiset([ps[0].1]) + multiset(DataOf(ps[1..]))
  {
    assert DataOf(ps) == [ps[0].1] + DataOf(ps[1..]);
  }

  lemma NoCount()
    ensures Count([]) == 0
  {
  }

  lemma CountMore(chains: seq<seq<HashEntry>>, i: nat)
    requires i < |chains|
    ensures Count(chains[..i + 1]) == Count(chains[..i]) + |chains[i]|
  {
    assert chains[..i + 1][..i] == chains[..i];
  }

  function DataOf(ps: seq<(Key, Data)>): (ds: seq<Data>)
    ensures |ds| == |ps| && forall i | 0 <= i < |ps| :: ds[i] == ps[i].1
  {
    seq(|ps|, i requires 0 <= i < |ps| => ps[i].1)
  }

  lemma LinkedHead(es: seq<HashEntry>, head: HashEntry?)
    requires Linked(es, head)
    ensures head == Nth(es, 0)
  {
  }

  lemma LinkedNext(es: seq<HashEntry>, head: HashEntry?, k: nat)
    requires Linked(es, head) && k < |es|
    ensures es[k].next == Nth(es, k + 1)
  {
    assert LinkedAt(es, k);
  }

  lemma {:induction false} CountPrefix(chains: seq<seq<HashEntry>>, n: nat)
    requires n <= |chains|
    ensures Count(chains[..n]) <= Count(chains)
    decreases |chains|
  {
    if n < |chains| {
      assert chains[..|chains| - 1][..n] == chains[..n];
      CountPrefix(chains[..|chains| - 1], n);
    } else {
      assert chains[..n] == chains;
    }
  }

  // What a search, and then the data, do to the stack of each key of the bucket.
  lemma DataAdded(ps: seq<(Key, Data)>, qs: seq<(Key, Data)>, rs: seq<(Key, Data)>, key: Key, op: Action, d: Data,
                  at: nat, set1: bool, other: Key)
    requires
      var s := StackOf(ps, key);
      var enters := op.EnterAlways? || (!op.FindEntry? && s == []);
      && (if enters then at <= |ps| && qs == ps[..at] + [(key, None)] + ps[at..] else qs == ps)
      && (set1 <==> !((op.EnterUnique? || op.FindEntry?) && !enters && !(op.FindEntry? && s != [])))
    requires if set1 then at < |qs| && FirstAt(qs, key, at) && rs == qs[at := (key, d)] else rs == qs
    ensures StackOf(rs, other) == if other == key then After(op, StackOf(ps, key), d).1 else StackOf(ps, other)
  {
    hide StackOf;
    var s := StackOf(ps, key);
    if op.EnterAlways? || (!op.FindEntry? && s == []) {
      EnteredAt(ps, key, at, other);
    }
    if set1 {
      Replaced(qs, at, d, other);
    }
  }

  lemma EnteredAt(ps: seq<(Key, Data)>, key: Key, at: nat, other: Key)
    requires at <= |ps| && FirstAt(ps[..at] + [(key, None)] + ps[at..], key, at)
    ensures StackOf(ps[..at] + [(key, None)] + ps[at..], other) ==
      (if other == key then [None] else []) + StackOf(ps, other)
  {
    var qs := ps[..at] + [(key, None)] + ps[at..];
    forall j | 0 <= j < at
      ensures ps[j].0 != key
    {
      assert qs[j] == ps[j];
    }
    EnteredStack(ps, at, (key, None), other);
  }

  lemma {:induction false} CountUpdate(chains: seq<seq<HashEntry>>, b: nat, es: seq<HashEntry>)
    requires b < |chains|
    ensures Count(chains[b := es]) == Count(chains) - |chains[b]| + |es|
    decreases |chains|
  {
    var n := |chains| - 1;
    if b < n {
      CountUpdate(chains[..n], b, es);
      assert chains[b := es][..n] == chains[..n][b := es];
    } else {
      assert chains[b := es][..n] == chains[..n];
    }
  }

  lemma SamePairs(es: seq<HashEntry>, ps: seq<(Key, Data)>)
    requires |es| == |ps| && forall j | 0 <= j < |es| :: ps[j] == (es[j].key, es[j].data)
    ensures PairsOf(es) == ps
  {
  }

  lemma EnteredFirst(ps: seq<(Key, Data)>, key: Key, k: nat, at: nat)
    requires FirstAt(ps, key, k) && at == if k == |ps| then 0 else k
    ensures FirstAt(ps[..at] + [(key, None)] + ps[at..], key, at)
  {
  }

  // No entry is in two buckets.
  lemma OtherChains(chains: seq<seq<HashEntry>>, heads: seq<HashEntry?>, b: nat)
    requires b < |chains| == |heads|
    requires forall c | 0 <= c < |chains| :: ChainGood(chains[c], heads[c], c, |chains|)
    ensures forall c, k | 0 <= c < |chains| && c != b && 0 <= k < |chains[c]| :: chains[c][k] !in chains[b]
  {
  }

  lemma {:induction false} EmptyCount(size: nat)
    ensures Count(seq(size, _ => [])) == 0
  {
    if size > 0 {
      EmptyCount(size - 1);
      var cs: seq<seq<HashEntry>> := seq(size, _ => []);
      assert cs[..size - 1] == seq(size - 1, _ => []);
    }
  }

  // What is entered under a key, the last first.
  function Entered(ps: seq<(Key, int)>, key: Key): seq<Data> {
    if ps == [] then []
    else (if ps[|ps| - 1].0 == key then [Some(ps[|ps| - 1].1)] else []) + Entered(ps[..|ps| - 1], key)
  }

  lemma NoneEntered()
    ensures forall key :: Entered([], key) == []
  {
  }

  lemma EnteredMore(ps: seq<(Key, int)>, i: nat, key: Key)
    requires i < |ps|
    ensures Entered(ps[..i + 1], key) == (if ps[i].0 == key then [Some(ps[i].1)] else []) + Entered(ps[..i], key)
  {
    assert ps[..i + 1][..i] == ps[..i];
  }

  lemma EnteredOver(ps: seq<(Key, int)>, i: nat, key: Key, s: seq<Data>)
    requires i < |ps|
    ensures Entered(ps[..i + 1], key) + s ==
      if ps[i].0 == key then [Some(ps[i].1)] + (Entered(ps[..i], key) + s) else Entered(ps[..i], key) + s
  {
    EnteredMore(ps, i, key);
  }

  lemma {:induction false} LastEntered(ps: seq<(Key, int)>, key: Key, i: nat)
    requires i < |ps| && ps[i].0 == key && forall j | i < j < |ps| :: ps[j].0 != key
    ensures Entered(ps, key) != [] && Entered(ps, key)[0] == Some(ps[i].1)
    decreases |ps|
  {
    if i < |ps| - 1 {
      LastEntered(ps[..|ps| - 1], key, i);
    }
  }

  function Count(chains: seq<seq<HashEntry>>): nat {
    if chains == [] then 0 else Count(chains[..|chains| - 1]) + |chains[|chains| - 1]|
  }
}
