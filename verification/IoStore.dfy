/**
 The I/O store: data to be written is gathered in buffers, units may be taken back before
 they are written, and each output writes what is fresh. Units are numbered from 0 in each
 buffer. An address is a buffer and a unit in it.
 */
module IoStore {
  import opened MeshRanges

  const ALLOC_UNITS := 16000

  // One buffer: its units, how many are in use, how many of those are written, and the
  // ranges taken back.
  datatype Buffer = Buffer(data: seq<int>, used: nat, output: nat, invalid: seq<Range>)

  // What every call keeps of a buffer: units not in use are 0, and a range taken back begins
  // at a unit that was in use.
  predicate BufferGood(b: Buffer) {
    && b.output <= b.used <= |b.data|
    && (forall k | b.used <= k < |b.data| :: b.data[k] == 0)
    && Canonical(b.invalid)
    && (forall r | r in b.invalid :: 0 <= r.start < b.used)
  }

  predicate AllGood(bs: seq<Buffer>) {
    forall i | 0 <= i < |bs| :: BufferGood(bs[i])
  }

  // ----- which units one output writes -----

  function Upto(a: int, z: int): (r: seq<int>)
    ensures |r| == if a < z then z - a else 0
    ensures forall i | 0 <= i < |r| :: r[i] == a + i
    decreases z - a
  {
    if a >= z then [] else [a] + Upto(a + 1, z)
  }

  // The loop over the invalid ranges. A range that does not begin after startUnit is passed
  // over, and startUnit stays.
  function Emitted(rs: seq<Range>, startUnit: int, used: int): seq<int> {
    if rs == [] then Upto(startUnit, used)
    else if rs[0].start > startUnit then Upto(startUnit, rs[0].start) + Emitted(rs[1..], rs[0].stop + 1, used)
    else Emitted(rs[1..], startUnit, used)
  }

  // The next range, and what comes after the last.
  lemma EmittedNext(rs: seq<Range>, i: nat, startUnit: int, used: int)
    requires i < |rs|
    ensures Emitted(rs[i..], startUnit, used) ==
      if rs[i].start > startUnit then Upto(startUnit, rs[i].start) + Emitted(rs[i + 1..], rs[i].stop + 1, used)
      else Emitted(rs[i + 1..], startUnit, used)
  {
    assert rs[i..][1..] == rs[i + 1..] && rs[i..][0] == rs[i];
  }

  lemma EmittedLast(rs: seq<Range>, startUnit: int, used: int)
    ensures Emitted(rs[|rs|..], startUnit, used) == Upto(startUnit, used)
    ensures startUnit >= used ==> Upto(startUnit, used) == []
  {
  }

  // The units from a on that have not been taken back.
  function Fresh(rs: seq<Range>, a: int, used: int): seq<int>
    decreases used - a
  {
    if a >= used then [] else (if Has(rs, a) then [] else [a]) + Fresh(rs, a + 1, used)
  }

  // The unit at which output resumes has been taken back.
  predicate Resumes(rs: seq<Range>, a: int, used: int) {
    a < used && Has(rs, a)
  }

  lemma FreshNext(rs: seq<Range>, a: int, used: int)
    requires a < used && !Has(rs, a)
    ensures Fresh(rs, a, used) == [a] + Fresh(rs, a + 1, used)
  {
  }

  lemma UptoNext(a: int, z: int)
    requires a < z
    ensures Upto(a, z) == [a] + Upto(a + 1, z)
  {
  }

  lemma Regroup(x: seq<int>, y: seq<int>, z: seq<int>)
    ensures x + (y + z) == (x + y) + z
  {
  }

  lemma {:induction false} FreshSplit(rs: seq<Range>, a: int, m: int, used: int)
    requires a <= m <= used
    requires forall k | a <= k < m :: !Has(rs, k)
    ensures Fresh(rs, a, used) == Upto(a, m) + Fresh(rs, m, used)
    decreases m - a
  {
    if a < m {
      hide Upto, Fresh, Has;
      FreshSplit(rs, a + 1, m, used);
      FreshNext(rs, a, used);
      UptoNext(a, m);
      Regroup([a], Upto(a + 1, m), Fresh(rs, m, used));
    }
  }

  lemma {:induction false} FreshSkip(rs: seq<Range>, a: int, m: int, used: int)
    requires a <= m && forall k | a <= k < m :: Has(rs, k)
    ensures Fresh(rs, a, used) == Fresh(rs, if m < used then m else used, used)
    decreases m - a
  {
    if a < m && a < used {
      FreshSkip(rs, a + 1, m, used);
    }
  }

  // Ranges that begin before a do not matter from a on, when a is in none of them.
  lemma {:induction false} FreshRest(rs: seq<Range>, a: int, used: int)
    requires Canonical(rs) && rs != [] && rs[0].stop < a
    ensures Fresh(rs, a, used) == Fresh(rs[1..], a, used)
    decreases used - a
  {
    if a < used {
      FreshRest(rs, a + 1, used);
      HasRest(rs, a);
    }
  }

  // An output writes exactly the fresh units, in order and once each, if and only if the unit
  // where it resumes has not been taken back.
  lemma {:induction false} OutputExact(rs: seq<Range>, a: int, used: int)
    requires Canonical(rs) && a <= used && forall r | r in rs :: r.start <= used
    ensures Emitted(rs, a, used) == Fresh(rs, a, used) <==> !Resumes(rs, a, used)
    decreases |rs|
  {
    if Resumes(rs, a, used) {
      ResumeWritten(rs, a, used);
      if Fresh(rs, a, used) != [] {
        FreshLater(rs, a, used);
      }
    } else if rs == [] {
      FreshSplit(rs, a, used, used);
    } else if rs[0].start > a {
      BeforeFirst(rs, a);
      FreshSplit(rs, a, rs[0].start, used);
      AfterRange(rs, used);
    } else if rs[0].stop < a {
      FreshRest(rs, a, used);
      HasRest(rs, a);
      OutputExact(rs[1..], a, used);
    } else {
      assert a == used;
      NothingLeft(rs, a, used);
    }
  }

  lemma BeforeFirst(rs: seq<Range>, a: int)
    requires Canonical(rs) && rs != []
    ensures forall k | a <= k < rs[0].start :: !Has(rs, k)
  {
  }

  lemma AfterRange(rs: seq<Range>, used: int)
    requires Canonical(rs) && rs != [] && rs[0].start <= used && forall r | r in rs :: r.start <= used
    ensures Fresh(rs, rs[0].start, used) == Emitted(rs[1..], rs[0].stop + 1, used)
    decreases |rs|, 0
  {
    var next := rs[0].stop + 1;
    FreshSkip(rs, rs[0].start, next, used);
    if next <= used {
      HasRest(rs, next);
      AroundFirst(rs);
      FreshRest(rs, next, used);
      OutputExact(rs[1..], next, used);
    } else {
      PastEnd(rs[1..], next, used);
    }
  }

  // Beyond the last unit in use nothing is written.
  lemma {:induction false} PastEnd(rs: seq<Range>, a: int, used: int)
    requires used <= a && forall r | r in rs :: r.start <= used
    ensures Emitted(rs, a, used) == []
    decreases |rs|
  {
    if rs != [] {
      PastEnd(rs[1..], a, used);
    }
  }

  lemma NothingLeft(rs: seq<Range>, a: int, used: int)
    requires a == used && forall r | r in rs :: r.start <= used
    ensures Emitted(rs, a, used) == [] == Fresh(rs, a, used)
  {
    PastEnd(rs, a, used);
  }

  lemma {:induction false} ResumeWritten(rs: seq<Range>, a: int, used: int)
    requires Canonical(rs) && Resumes(rs, a, used)
    ensures Emitted(rs, a, used) != [] && Emitted(rs, a, used)[0] == a
    decreases |rs|
  {
    if rs[0].stop < a {
      HasRest(rs, a);
      ResumeWritten(rs[1..], a, used);
    } else {
      AroundFirst(rs);
      EmittedFirst(rs[1..], a, used);
    }
  }

  lemma {:induction false} EmittedFirst(rs: seq<Range>, a: int, used: int)
    requires a < used
    ensures Emitted(rs, a, used) != [] && Emitted(rs, a, used)[0] == a
    decreases |rs|
  {
    if rs != [] && rs[0].start <= a {
      EmittedFirst(rs[1..], a, used);
    }
  }

  lemma {:induction false} FreshLater(rs: seq<Range>, a: int, used: int)
    requires Has(rs, a) && Fresh(rs, a, used) != []
    ensures Fresh(rs, a, used)[0] > a
    decreases used - a
  {
    if a < used {
      FreshAtLeast(rs, a + 1, used);
    }
  }

  lemma {:induction false} FreshAtLeast(rs: seq<Range>, a: int, used: int)
    ensures Fresh(rs, a, used) != [] ==> Fresh(rs, a, used)[0] >= a
    decreases used - a
  {
    if a < used {
      FreshAtLeast(rs, a + 1, used);
    }
  }

  // ----- whole stores -----

  // A unit: its buffer, and its place there.
  type Unit = (nat, int)

  // Of the first n units of buffer b, those not skipped.
  ghost function Kept(b: nat, n: int, skipped: set<Unit>): seq<Unit> {
    if n <= 0 then [] else Kept(b, n - 1, skipped) + if (b, n - 1) in skipped then [] else [(b, n - 1)]
  }

  // Of the units written so far, those not skipped, buffer by buffer.
  ghost function AllKept(bs: seq<Buffer>, skipped: set<Unit>): seq<Unit> {
    if bs == [] then []
    else AllKept(bs[..|bs| - 1], skipped) + Kept(|bs| - 1, bs[|bs| - 1].output, skipped)
  }

  // What has not been written, invalid or not.
  function Unwritten(bs: seq<Buffer>): seq<int>
    requires AllGood(bs)
  {
    if bs == [] then []
    else
      var b := bs[|bs| - 1];
      Unwritten(bs[..|bs| - 1]) + b.data[b.output..b.used]
  }

  function Tagged(b: nat, ks: seq<int>): (us: seq<Unit>)
    ensures |us| == |ks| && forall i | 0 <= i < |ks| :: us[i] == (b, ks[i])
  {
    seq(|ks|, i requires 0 <= i < |ks| => (b, ks[i]))
  }

  // The units of buffer b taken back before they could be written.
  ghost function Lost(b: nat, buf: Buffer): (us: set<Unit>)
    ensures forall u :: u in us <==> u.0 == b && buf.output <= u.1 < buf.used && Has(buf.invalid, u.1)
  {
    set k: int | buf.output <= k < buf.used && Has(buf.invalid, k) :: (b, k)
  }

  lemma {:induction false} KeptSame(b: nat, n: int, s: set<Unit>, s': set<Unit>)
    requires forall k | 0 <= k < n :: (b, k) in s <==> (b, k) in s'
    ensures Kept(b, n, s) == Kept(b, n, s')
  {
    if n > 0 {
      KeptSame(b, n - 1, s, s');
    }
  }

  lemma {:induction false} AllKeptSame(bs: seq<Buffer>, bs': seq<Buffer>, s: set<Unit>, s': set<Unit>)
    requires |bs| == |bs'| && forall i | 0 <= i < |bs| :: bs[i].output == bs'[i].output
    requires forall b: nat, k | b < |bs| && 0 <= k < bs[b].output :: (b, k) in s <==> (b, k) in s'
    ensures AllKept(bs, s) == AllKept(bs', s')
    decreases |bs|
  {
    if bs != [] {
      var n := |bs| - 1;
      AllKeptSame(bs[..n], bs'[..n], s, s');
      KeptSame(n, bs[n].output, s, s');
    }
  }

  // Only units that an output has passed are skipped.
  ghost predicate Passed(bs: seq<Buffer>, skipped: set<Unit>) {
    forall u: Unit | u in skipped :: u.0 < |bs| && u.1 < bs[u.0].output
  }

  // Nothing that is kept was skipped.
  lemma {:induction false} KeptNotSkipped(b: nat, n: int, s: set<Unit>)
    ensures forall u | u in Kept(b, n, s) :: u !in s
    decreases n
  {
    if n > 0 {
      KeptNotSkipped(b, n - 1, s);
    }
  }

  lemma {:induction false} AllKeptNotSkipped(bs: seq<Buffer>, s: set<Unit>)
    ensures forall u | u in AllKept(bs, s) :: u !in s
    decreases |bs|
  {
    if bs != [] {
      AllKeptNotSkipped(bs[..|bs| - 1], s);
      KeptNotSkipped(|bs| - 1, bs[|bs| - 1].output, s);
    }
  }

  // A unit was written although it had been taken back.
  ghost predicate Spoiled(written: seq<Unit>, skipped: set<Unit>) {
    exists u | u in written :: u in skipped
  }

  lemma SpoiledStays(written: seq<Unit>, skipped: set<Unit>, more: seq<Unit>, lost: set<Unit>)
    requires Spoiled(written, skipped)
    ensures Spoiled(written + more, skipped + lost)
  {
    var u :| u in written && u in skipped;
    assert u in written + more && u in skipped + lost;
  }

  // The unit at which an output resumes is written, taken back or not.
  lemma ResumeSpoils(b: Buffer, i: nat, written: seq<Unit>, skipped: set<Unit>)
    requires BufferGood(b) && Resumes(b.invalid, b.output, b.used)
    ensures (i, b.output) in Tagged(i, Emitted(b.invalid, b.output, b.used))
    ensures Spoiled(written + Tagged(i, Emitted(b.invalid, b.output, b.used)), skipped + Lost(i, b))
  {
    ResumeWritten(b.invalid, b.output, b.used);
    var us := Tagged(i, Emitted(b.invalid, b.output, b.used));
    assert us[0] == (i, b.output);
    var u: Unit := (i, b.output);
    assert u in written + us && u in skipped + Lost(i, b);
  }

  // Buffers with nothing written add nothing.
  lemma {:induction false} AllKeptUpto(bs: seq<Buffer>, i: nat, s: set<Unit>)
    requires i < |bs| && forall j | i < j < |bs| :: bs[j].output == 0
    ensures AllKept(bs, s) == AllKept(bs[..i], s) + Kept(i, bs[i].output, s)
    decreases |bs|
  {
    var n := |bs| - 1;
    if i < n {
      AllKeptUpto(bs[..n], i, s);
      assert bs[..n][..i] == bs[..i];
    }
  }

  // Writing the fresh units of a buffer after those kept before.
  lemma {:induction false} KeptFresh(b: nat, rs: seq<Range>, a: int, used: int, s: set<Unit>)
    requires 0 <= a <= used
    requires forall k | a <= k < used :: (b, k) in s <==> Has(rs, k)
    ensures Kept(b, used, s) == Kept(b, a, s) + Tagged(b, Fresh(rs, a, used))
    decreases used - a
  {
    hide Has, Tagged;
    if a < used {
      KeptFresh(b, rs, a + 1, used, s);
      var x := if Has(rs, a) then [] else [a];
      TaggedOne(b, a);
      assert Kept(b, a + 1, s) == Kept(b, a, s) + Tagged(b, x);
      TaggedJoin(b, Kept(b, a, s), x, Fresh(rs, a + 1, used));
    } else {
      TaggedOne(b, a);
    }
  }

  lemma TaggedOne(b: nat, k: int)
    ensures Tagged(b, [k]) == [(b, k)] && Tagged(b, []) == []
  {
  }

  lemma TaggedJoin(b: nat, v: seq<Unit>, x: seq<int>, y: seq<int>)
    ensures (v + Tagged(b, x)) + Tagged(b, y) == v + Tagged(b, x + y)
  {
  }

  // One buffer is written: if its output is exact, the units kept grow by what is written.
  lemma BufferWritten(bs: seq<Buffer>, i: nat, s: set<Unit>)
    requires i < |bs| && BufferGood(bs[i])
    requires forall j | i < j < |bs| :: bs[j].output == 0
    requires Passed(bs, s)
    requires !Resumes(bs[i].invalid, bs[i].output, bs[i].used)
    ensures
      var b := bs[i];
      var bs' := bs[i := b.(output := b.used)];
      AllKept(bs', s + Lost(i, b)) == AllKept(bs, s) + Tagged(i, Emitted(b.invalid, b.output, b.used))
  {
    hide Emitted, Fresh, Tagged, Kept, AllKept, Has, Canonical;
    var b := bs[i];
    var bs' := bs[i := b.(output := b.used)];
    var s' := s + Lost(i, b);
    AllKeptUpto(bs, i, s);
    AllKeptUpto(bs', i, s');
    assert bs'[..i] == bs[..i];
    AllKeptSame(bs[..i], bs[..i], s, s');
    KeptSame(i, b.output, s, s');
    KeptFresh(i, b.invalid, b.output, b.used, s');
    OutputExact(b.invalid, b.output, b.used);
  }

  lemma {:induction false} UnwrittenJoin(xs: seq<Buffer>, ys: seq<Buffer>)
    requires AllGood(xs) && AllGood(ys)
    ensures AllGood(xs + ys) && Unwritten(xs + ys) == Unwritten(xs) + Unwritten(ys)
    decreases |ys|
  {
    hide BufferGood;
    if ys == [] {
      assert xs + ys == xs;
      NoneWaiting();
    } else {
      var n := |ys| - 1;
      var zs := xs + ys;
      UnwrittenJoin(xs, ys[..n]);
      assert zs[..|zs| - 1] == xs + ys[..n] && zs[|zs| - 1] == ys[n];
      LastWaiting(zs);
      LastWaiting(ys);
      hide Unwritten;
      var v := Unwritten(zs[..|zs| - 1]);
      assert v == Unwritten(xs) + Unwritten(ys[..n]);
    }
  }

  lemma LastWaiting(bs: seq<Buffer>)
    requires AllGood(bs) && bs != []
    ensures
      var b := bs[|bs| - 1];
      BufferGood(b) && Unwritten(bs) == Unwritten(bs[..|bs| - 1]) + b.data[b.output..b.used]
  {
  }

  lemma {:induction false} WrittenOut(bs: seq<Buffer>)
    requires AllGood(bs) && forall i | 0 <= i < |bs| :: bs[i].output == bs[i].used
    ensures Unwritten(bs) == []
  {
    if bs != [] {
      WrittenOut(bs[..|bs| - 1]);
    }
  }

  lemma NewBuffer(bs: seq<Buffer>, b: Buffer, s: set<Unit>)
    requires b.output == 0 == b.used && BufferGood(b) && AllGood(bs)
    ensures AllGood(bs + [b]) && AllKept(bs + [b], s) == AllKept(bs, s) && Unwritten(bs + [b]) == Unwritten(bs)
  {
    assert (bs + [b])[..|bs|] == bs;
  }

  lemma UsedBelow(b: Buffer)
    requires BufferGood(b)
    ensures b.output <= b.used <= |b.data|
  {
  }

  lemma GrowBuffer(bs: seq<Buffer>, qty: nat, s: set<Unit>)
    requires bs != [] && AllGood(bs)
    requires var b := bs[|bs| - 1]; b.used + qty <= |b.data|
    ensures
      var i := |bs| - 1;
      var b := bs[i].(used := bs[i].used + qty);
      var bs' := bs[i := b];
      && BufferGood(b) && AllGood(bs')
      && AllKept(bs', s) == AllKept(bs, s) && Unwritten(bs') == Unwritten(bs) + seq(qty, _ => 0)
  {
    var i := |bs| - 1;
    var b := bs[i];
    assert bs[i := b.(used := b.used + qty)][..i] == bs[..i];
    assert b.data[b.output..b.used + qty] == b.data[b.output..b.used] + seq(qty, _ => 0);
  }

  // The last units in use, n of them, are written into.
  lemma FillBuffer(bs: seq<Buffer>, k: nat, x: seq<int>, w: seq<int>, s: set<Unit>)
    requires bs != [] && AllGood(bs)
    requires var b := bs[|bs| - 1]; b.output <= k && k + |x| == b.used
    requires Unwritten(bs) == w + seq(|x|, _ => 0)
    ensures
      var i := |bs| - 1;
      var b := bs[i].(data := bs[i].data[..k] + x + bs[i].data[k + |x|..]);
      var bs' := bs[i := b];
      && BufferGood(b) && AllGood(bs')
      && AllKept(bs', s) == AllKept(bs, s) && Unwritten(bs') == w + x
  {
    var i := |bs| - 1;
    var b := bs[i];
    var b' := b.(data := b.data[..k] + x + b.data[k + |x|..]);
    var bs' := bs[i := b'];
    var before := Unwritten(bs[..i]);
    assert bs'[..i] == bs[..i];
    assert Unwritten(bs) == before + b.data[b.output..b.used];
    assert b.data[b.output..b.used] == b.data[b.output..k] + b.data[k..b.used];
    assert b'.data[b.output..b.used] == b.data[b.output..k] + x;
    var n := |w|;
    assert w == Unwritten(bs)[..n];
    assert w == before + b.data[b.output..k];
    assert Unwritten(bs') == before + b'.data[b.output..b.used];
  }

  lemma LastUsed(bs: seq<Buffer>)
    requires AllGood(bs) && bs != []
    ensures var b := bs[|bs| - 1]; b.output <= b.used <= |b.data|
  {
  }

  lemma PassedSame(bs: seq<Buffer>, bs': seq<Buffer>, skipped: set<Unit>)
    requires Passed(bs, skipped) && |bs'| == |bs| && forall i | 0 <= i < |bs| :: bs'[i].output == bs[i].output
    ensures Passed(bs', skipped)
  {
  }

  lemma GapBefore(rs: seq<Range>, k: nat)
    requires Canonical(rs) && k < |rs|
    ensures Has(rs, rs[k].start) && !Has(rs, rs[k].start - 1)
  {
  }

  // A range still begins at a unit in use after another has been joined to it.
  lemma StartsBelow(rs: seq<Range>, start: int, stop: int, used: int)
    requires Canonical(rs) && start <= stop && 0 <= start < used && forall r | r in rs :: 0 <= r.start < used
    requires !Insert(rs, start, stop).0.Overlapped?
    ensures forall r | r in Insert(rs, start, stop).1 :: 0 <= r.start < used
  {
    InsertIs(rs, start, stop);
    var rs' := Insert(rs, start, stop).1;
    hide Insert, Canonical;
    forall r | r in rs'
      ensures 0 <= r.start < used
    {
      var k :| 0 <= k < |rs'| && rs'[k] == r;
      GapBefore(rs', k);
      if Has(rs, r.start) {
        StartThere(rs, r.start);
      } else {
        assert !(start <= r.start - 1 <= stop);
      }
    }
  }

  lemma StartThere(rs: seq<Range>, id: int)
    requires Has(rs, id) && !Has(rs, id - 1)
    ensures exists r | r in rs :: r.start == id
  {
  }

  predicate Inside(units: seq<int>, a: int, z: int) {
    forall i | 0 <= i < |units| :: a <= units[i] < z
  }

  lemma InsideJoin(xs: seq<int>, ys: seq<int>, a: int, z: int)
    requires Inside(xs, a, z) && Inside(ys, a, z)
    ensures Inside(xs + ys, a, z)
  {
  }

  // Every unit written is in use.
  lemma {:induction false} EmittedInside(rs: seq<Range>, a: int, used: int)
    requires Canonical(rs) && forall i | 0 <= i < |rs| :: rs[i].start < used
    ensures Inside(Emitted(rs, a, used), a, used)
    decreases |rs|
  {
    if rs != [] {
      if rs[0].start > a {
        var next := rs[0].stop + 1;
        EmittedInside(rs[1..], next, used);
        InsideJoin(Upto(a, rs[0].start), Emitted(rs[1..], next, used), a, used);
      } else {
        EmittedInside(rs[1..], a, used);
      }
    }
  }

  lemma UnitsInside(b: Buffer)
    requires BufferGood(b)
    ensures UnitsOf(b, Emitted(b.invalid, b.output, b.used))
    ensures b.invalid == [] ==> ValuesOf(b, Emitted(b.invalid, b.output, b.used)) == b.data[b.output..b.used]
  {
    EmittedInside(b.invalid, b.output, b.used);
  }

  predicate UnitsOf(b: Buffer, units: seq<int>) {
    forall i | 0 <= i < |units| :: 0 <= units[i] < |b.data|
  }

  function ValuesOf(b: Buffer, units: seq<int>): (vs: seq<int>)
    requires UnitsOf(b, units)
    ensures |vs| == |units| && forall i | 0 <= i < |units| :: vs[i] == b.data[units[i]]
  {
    seq(|units|, i requires 0 <= i < |units| => b.data[units[i]])
  }

  predicate InStore(bs: seq<Buffer>, u: Unit) {
    u.0 < |bs| && 0 <= u.1 < |bs[u.0].data|
  }

  // The values vs are those of the units us.
  predicate ValuesAt(bs: seq<Buffer>, us: seq<Unit>, vs: seq<int>) {
    |us| == |vs| && forall i | 0 <= i < |us| :: InStore(bs, us[i]) && vs[i] == UnitValue(bs, us[i])
  }

  lemma ValuesMore(bs: seq<Buffer>, us: seq<Unit>, vs: seq<int>, i: nat, units: seq<int>, bs': seq<Buffer>)
    requires ValuesAt(bs, us, vs) && i < |bs| && UnitsOf(bs[i], units)
    requires |bs'| == |bs| && forall j | 0 <= j < |bs| :: bs'[j].data == bs[j].data
    ensures ValuesAt(bs', us + Tagged(i, units), vs + ValuesOf(bs[i], units))
  {
  }

  function UnitValue(bs: seq<Buffer>, u: Unit): int
    requires InStore(bs, u)
  {
    bs[u.0].data[u.1]
  }

  lemma FirstWaiting(bs: seq<Buffer>)
    requires AllGood(bs) && bs != []
    ensures BufferGood(bs[0]) && AllGood(bs[1..])
    ensures Unwritten(bs) == bs[0].data[bs[0].output..bs[0].used] + Unwritten(bs[1..])
  {
    assert bs == [bs[0]] + bs[1..] && [bs[0]][..0] == [];
    UnwrittenJoin([bs[0]], bs[1..]);
    assert Unwritten([bs[0]]) == bs[0].data[bs[0].output..bs[0].used];
  }

  predicate ResumesAt(bs: seq<Buffer>, i: nat)
    requires i < |bs|
  {
    Resumes(bs[i].invalid, bs[i].output, bs[i].used)
  }

  function ResumeUnit(bs: seq<Buffer>, i: nat): Unit
    requires i < |bs|
  {
    (i, bs[i].output)
  }

  // The units at which the buffers from a to z resume are written, taken back or not.
  ghost predicate ResumesWritten(bs: seq<Buffer>, a: nat, z: nat, written: seq<Unit>)
    requires z <= |bs|
  {
    forall i: nat | a <= i < z && ResumesAt(bs, i) :: ResumeUnit(bs, i) in written
  }

  lemma NoResumes(bs: seq<Buffer>, a: nat, written: seq<Unit>)
    requires a <= |bs|
    ensures ResumesWritten(bs, a, a, written)
  {
  }

  lemma ResumesMore(bs: seq<Buffer>, a: nat, i: nat, written: seq<Unit>, more: seq<Unit>)
    requires a <= i < |bs| && ResumesWritten(bs, a, i, written)
    requires ResumesAt(bs, i) ==> ResumeUnit(bs, i) in written + more
    ensures ResumesWritten(bs, a, i + 1, written + more)
  {
    hide ResumesAt, ResumeUnit;
    forall j: nat | a <= j < i + 1 && ResumesAt(bs, j)
      ensures ResumeUnit(bs, j) in written + more
    {
    }
  }

  predicate ClearIn(bs: seq<Buffer>, a: nat, z: nat)
    requires z <= |bs|
  {
    forall i | a <= i < z :: !Resumes(bs[i].invalid, bs[i].output, bs[i].used)
  }

  lemma ClearMore(bs: seq<Buffer>, a: nat, i: nat)
    requires a <= i < |bs|
    ensures ClearIn(bs, a, a)
    ensures ClearIn(bs, a, i + 1) <==> ClearIn(bs, a, i) && !Resumes(bs[i].invalid, bs[i].output, bs[i].used)
  {
    hide Resumes;
  }

  lemma NoValues(bs: seq<Buffer>, w: seq<Unit>)
    ensures ValuesAt(bs, w[|w|..], [])
  {
  }

  lemma NoneWaiting()
    ensures Unwritten([]) == []
  {
  }

  // What one buffer's part adds to an output.
  lemma OutputMore(bs: seq<Buffer>, i: nat, bs': seq<Buffer>, w0: seq<Unit>, w: seq<Unit>, w': seq<Unit>,
                   out: seq<int>, values: seq<int>)
    requires AllGood(bs) && i < |bs| && bs' == bs[i := bs[i].(output := bs[i].used)] && AllGood(bs')
    requires w0 <= w && ValuesAt(bs, w[|w0|..], out)
    requires
      var b := bs[i];
      var units := Emitted(b.invalid, b.output, b.used);
      UnitsOf(b, units) && w' == w + Tagged(i, units) && values == ValuesOf(b, units)
    ensures w0 <= w' && ValuesAt(bs', w'[|w0|..], out + values)
    ensures bs[i].invalid == [] ==> Unwritten(bs[i..]) == values + Unwritten(bs'[i + 1..])
  {
    hide BufferGood, Emitted, Unwritten;
    var b := bs[i];
    var units := Emitted(b.invalid, b.output, b.used);
    ValuesMore(bs, w[|w0|..], out, i, units, bs');
    assert w'[|w0|..] == w[|w0|..] + Tagged(i, units);
    FirstWaiting(bs[i..]);
    UnitsInside(b);
    assert bs'[i + 1..] == bs[i..][1..];
  }

  // Of what was waiting in rest, out has been put out and the buffers bs wait still.
  ghost predicate Remaining(rest: seq<Buffer>, bs: seq<Buffer>, out: seq<int>) {
    AllGood(rest) && AllGood(bs) && Unwritten(rest) == out + Unwritten(bs)
  }

  lemma NoneRemaining(rest: seq<Buffer>, bs: seq<Buffer>, out: seq<int>)
    requires bs == []
    ensures Remaining(rest, bs, out) ==> AllGood(rest) && out == Unwritten(rest)
  {
    NoneWaiting();
  }

  class Store {
    var buffers: seq<Buffer>
    var currentIndex: nat
    var currentOutputIndex: nat
    ghost var written: seq<Unit>     // every unit written, in order
    ghost var skipped: set<Unit>     // every unit taken back before an output that passed it
    ghost var exact: bool            // no output has resumed at a unit taken back

    ghost predicate Valid()
      reads this
    {
      && |buffers| == currentIndex + 1 && currentOutputIndex <= currentIndex
      && AllGood(buffers)
      && (forall i | 0 <= i < currentOutputIndex :: buffers[i].output == buffers[i].used)
      && (forall i | currentOutputIndex < i < |buffers| :: buffers[i].output == 0)
      && Passed(buffers, skipped)
      && (exact ==> written == AllKept(buffers, skipped))
      && (!exact ==> Spoiled(written, skipped))
    }

    // What has been written is what was to be written if and only if every output was exact.
    lemma ExactIs()
      requires Valid()
      ensures exact <==> written == AllKept(buffers, skipped)
    {
      hide AllKept, AllGood;
      AllKeptNotSkipped(buffers, skipped);
    }

    function Waiting(): seq<int>
      requires Valid()
      reads this
    {
      Unwritten(buffers)
    }

    // ios_create
    constructor ()
      ensures Valid() && exact && written == [] && Waiting() == [] && NothingTakenBack()
    {
      buffers := [Buffer(seq(ALLOC_UNITS, _ => 0), 0, 0, [])];
      currentIndex, currentOutputIndex := 0, 0;
      written, skipped, exact := [], {}, true;
      new;
      assert buffers[..0] == [];
      assert AllKept(buffers[..0], {}) == [] && Kept(0, 0, {}) == [];
      assert Unwritten(buffers[..0]) == [];
    }

    // Another buffer, large enough for qty units.
    method AddBuffer(qty: nat)
      requires Valid()
      modifies this`buffers, this`currentIndex
      ensures Valid() && Waiting() == old(Waiting()) && currentIndex == old(currentIndex) + 1
      ensures exists b :: buffers == old(buffers) + [b] && b.used == 0 == b.output && qty <= |b.data| && b.invalid == []
    {
      var newSize := ALLOC_UNITS;
      while newSize < qty
        decreases qty - newSize
      {
        newSize := newSize + ALLOC_UNITS;
      }
      var b := Buffer(seq(newSize, _ => 0), 0, 0, []);
      NewBuffer(buffers, b, skipped);
      buffers := buffers + [b];
      currentIndex := currentIndex + 1;
    }

    // ios_alloc: where the units are, or nothing for an empty request. They are all 0.
    method Alloc(qty: nat) returns (at: seq<Unit>)
      requires Valid()
      modifies this`buffers, this`currentIndex
      ensures Valid()
      ensures qty == 0 <==> at == []
      ensures qty == 0 ==> Waiting() == old(Waiting())
      ensures qty > 0 ==>
        && |at| == 1 && at[0].0 == currentIndex && 0 <= at[0].1
        && at[0].1 + qty == buffers[currentIndex].used && buffers[currentIndex].output <= at[0].1
        && Waiting() == old(Waiting()) + seq(qty, _ => 0)
      ensures old(NothingTakenBack()) ==> NothingTakenBack()
    {
      hide BufferGood, AllKept, Unwritten, Kept;
      if qty == 0 {
        return [];
      }
      if buffers[currentIndex].used + qty > |buffers[currentIndex].data| {
        AddBuffer(qty);
      }
      var b := buffers[currentIndex];
      at := [(currentIndex, b.used)];
      UsedBelow(b);
      GrowBuffer(buffers, qty, skipped);
      buffers := buffers[currentIndex := b.(used := b.used + qty)];
    }

    // ios_str_dup: the string, which holds no 0, and its terminator.
    method StrDup(s: seq<int>) returns (len: nat)
      requires Valid()
      modifies this`buffers, this`currentIndex
      ensures Valid()
      ensures len == |s| && Waiting() == old(Waiting()) + s + [0]
      ensures old(NothingTakenBack()) ==> NothingTakenBack()
    {
      hide AllKept, Unwritten, Kept, BufferGood, Spoiled, Passed, AllGood;
      var n := |s| + 1;
      var at := Alloc(n);
      var k := at[0].1;
      ghost var bs := buffers;
      var b := buffers[currentIndex];
      LastUsed(bs);
      buffers := buffers[currentIndex := b.(data := b.data[..k] + (s + [0]) + b.data[k + n..])];
      PassedSame(bs, buffers, skipped);
      assert old(Waiting()) + (s + [0]) == old(Waiting()) + s + [0];
      FillBuffer(bs, k, s + [0], old(Waiting()), skipped);
      return |s|;
    }

    // ios_unalloc: qty units from address `at' on are taken back.
    method Unalloc(at: Unit, qty: nat) returns (ok: bool)
      requires Valid() && qty > 0 && 0 <= at.1
      modifies this`buffers
      ensures Valid()
      ensures ok <==>
        && at.0 < |old(buffers)| && at.1 < old(buffers)[at.0].used
        && !Meets(old(buffers)[at.0].invalid, at.1, at.1 + qty - 1)
      ensures !ok ==> buffers == old(buffers)
      ensures ok ==>
        && |buffers| == |old(buffers)|
        && buffers == old(buffers)[at.0 := old(buffers)[at.0].(invalid := buffers[at.0].invalid)]
        && IsUnion(old(buffers)[at.0].invalid, at.1, at.1 + qty - 1, buffers[at.0].invalid)
    {
      hide AllKept, Kept, Insert, Has;
      if at.0 >= |buffers| || at.1 >= buffers[at.0].used {
        return false;
      }
      var b := buffers[at.0];
      var (status, rs) := Insert(b.invalid, at.1, at.1 + qty - 1);
      InsertIs(b.invalid, at.1, at.1 + qty - 1);
      if status.Overlapped? {
        return false;
      }
      StartsBelow(b.invalid, at.1, at.1 + qty - 1, b.used);
      ghost var bs := buffers;
      buffers := buffers[at.0 := b.(invalid := rs)];
      AllKeptSame(bs, buffers, skipped, skipped);
      return true;
    }

    // No unit has been taken back.
    predicate NothingTakenBack()
      reads this
    {
      forall b | b in buffers :: b.invalid == []
    }

    // No buffer that the next output comes to resumes at a unit taken back.
    predicate Clear()
      requires Valid()
      reads this
    {
      ClearIn(buffers, currentOutputIndex, |buffers|)
    }

    // One buffer's part of an output: the units written.
    method WriteBuffer(b: Buffer) returns (units: seq<int>)
      ensures units == Emitted(b.invalid, b.output, b.used)
    {
      hide Emitted, Upto;
      var startUnit := b.output;
      units := [];
      var i := 0;
      assert b.invalid[0..] == b.invalid;
      while i < |b.invalid|
        invariant i <= |b.invalid|
        invariant Emitted(b.invalid, b.output, b.used) == units + Emitted(b.invalid[i..], startUnit, b.used)
      {
        var r := b.invalid[i];
        EmittedNext(b.invalid, i, startUnit, b.used);
        Regroup(units, Upto(startUnit, r.start), Emitted(b.invalid[i + 1..], r.stop + 1, b.used));
        if r.start > startUnit {
          units := units + Upto(startUnit, r.start);
          startUnit := r.stop + 1;
        }
        i := i + 1;
      }
      EmittedLast(b.invalid, startUnit, b.used);
      if startUnit < b.used {
        units := units + Upto(startUnit, b.used);
      }
    }

    method OutputBuffer(i: nat) returns (values: seq<int>)
      requires AllGood(buffers) && i < |buffers| && forall j | i < j < |buffers| :: buffers[j].output == 0
      requires Passed(buffers, skipped)
      requires exact ==> written == AllKept(buffers, skipped)
      requires !exact ==> Spoiled(written, skipped)
      modifies this`buffers, this`written, this`skipped, this`exact
      ensures buffers == old(buffers)[i := old(buffers)[i].(output := old(buffers)[i].used)] && AllGood(buffers)
      ensures Passed(buffers, skipped)
      ensures exact ==> written == AllKept(buffers, skipped)
      ensures !exact ==> Spoiled(written, skipped)
      ensures var b := old(buffers)[i]; Resumes(b.invalid, b.output, b.used) ==> (i, b.output) in written
      ensures var b := old(buffers)[i];
        && exact == (old(exact) && !Resumes(b.invalid, b.output, b.used))
        && var units := Emitted(b.invalid, b.output, b.used);
           UnitsOf(b, units) && written == old(written) + Tagged(i, units) && values == ValuesOf(b, units)
    {
      hide AllKept, Emitted, Kept, Has, Spoiled;
      var b := buffers[i];
      var units := WriteBuffer(b);
      UnitsInside(b);
      if !exact {
        SpoiledStays(written, skipped, Tagged(i, units), Lost(i, b));
      }
      if Resumes(b.invalid, b.output, b.used) {
        ResumeSpoils(b, i, written, skipped);
        exact := false;
      } else {
        BufferWritten(buffers, i, skipped);
      }
      skipped := skipped + Lost(i, b);
      written := written + Tagged(i, units);
      values := ValuesOf(b, units);
      buffers := buffers[i := b.(output := b.used)];
    }

    // The buffers from currentOutputIndex on, one after the other.
    method OutputBuffers() returns (out: seq<int>)
      requires Valid()
      modifies this`buffers, this`written, this`skipped, this`exact
      ensures |buffers| == |old(buffers)| && AllGood(buffers)
      ensures forall j | 0 <= j < currentOutputIndex :: buffers[j] == old(buffers)[j]
      ensures forall j | currentOutputIndex <= j < |buffers| :: buffers[j] == old(buffers)[j].(output := old(buffers)[j].used)
      ensures Passed(buffers, skipped)
      ensures exact == (old(exact) && old(Clear()))
      ensures (exact ==> written == AllKept(buffers, skipped)) && (!exact ==> Spoiled(written, skipped))
      ensures ResumesWritten(old(buffers), currentOutputIndex, |old(buffers)|, written)
      ensures old(written) <= written && ValuesAt(buffers, written[|old(written)|..], out)
      ensures old(NothingTakenBack()) ==> AllGood(old(buffers)[currentOutputIndex..])
      ensures old(NothingTakenBack()) ==> out == Unwritten(old(buffers)[currentOutputIndex..])
    {
      hide Store.Valid, Halfway, Remaining, AllKept, Unwritten, ClearIn, ResumesWritten, ValuesAt, Passed, Spoiled, AllGood;
      ghost var bs0, w0, exact0, intact := buffers, written, exact, NothingTakenBack();
      NothingOutput();
      ghost var rest := bs0[currentOutputIndex..];
      out := [];
      var i := currentOutputIndex;
      while i < currentIndex + 1
        invariant currentOutputIndex <= i <= currentIndex + 1 == |buffers|
        invariant Halfway(bs0, w0, exact0, i, out)
        invariant intact ==> Remaining(rest, buffers[i..], out)
      {
        out := OutputTurn(bs0, w0, exact0, intact, rest, i, out);
        i := i + 1;
      }
      AllOutput(bs0, w0, exact0, out);
      NoneRemaining(rest, buffers[i..], out);
    }

    // Where an output is that has come to buffer i, from buffers bs0, and has written out.
    ghost predicate Halfway(bs0: seq<Buffer>, w0: seq<Unit>, exact0: bool, i: nat, out: seq<int>)
      reads this
    {
      && |buffers| == |bs0| == currentIndex + 1 && currentOutputIndex <= i <= |bs0|
      && (forall j | 0 <= j < currentOutputIndex :: buffers[j] == bs0[j])
      && (forall j | currentOutputIndex <= j < i :: buffers[j] == bs0[j].(output := bs0[j].used))
      && (forall j | i <= j < |bs0| :: buffers[j] == bs0[j])
      && (forall j | i < j < |bs0| :: bs0[j].output == 0)
      && AllGood(buffers) && Passed(buffers, skipped)
      && exact == (exact0 && ClearIn(bs0, currentOutputIndex, i))
      && (exact ==> written == AllKept(buffers, skipped)) && (!exact ==> Spoiled(written, skipped))
      && ResumesWritten(bs0, currentOutputIndex, i, written)
      && w0 <= written && ValuesAt(buffers, written[|w0|..], out)
    }

    lemma NothingOutput()
      requires Valid()
      ensures |buffers| == currentIndex + 1 && currentOutputIndex <= currentIndex
      ensures Halfway(buffers, written, exact, currentOutputIndex, [])
      ensures Remaining(buffers[currentOutputIndex..], buffers[currentOutputIndex..], [])
    {
      hide AllKept, BufferGood, Unwritten, Spoiled, ResumesWritten, ClearIn, ValuesAt, Passed;
      NoResumes(buffers, currentOutputIndex, written);
      ClearMore(buffers, currentOutputIndex, currentOutputIndex);
      NoValues(buffers, written);
    }

    lemma AllOutput(bs0: seq<Buffer>, w0: seq<Unit>, exact0: bool, out: seq<int>)
      requires Halfway(bs0, w0, exact0, currentIndex + 1, out)
      ensures |buffers| == |bs0| == currentIndex + 1 && AllGood(buffers)
      ensures forall j | 0 <= j < currentOutputIndex :: buffers[j] == bs0[j]
      ensures forall j | currentOutputIndex <= j < |buffers| :: buffers[j] == bs0[j].(output := bs0[j].used)
      ensures Passed(buffers, skipped)
      ensures exact == (exact0 && ClearIn(bs0, currentOutputIndex, |bs0|))
      ensures (exact ==> written == AllKept(buffers, skipped)) && (!exact ==> Spoiled(written, skipped))
      ensures ResumesWritten(bs0, currentOutputIndex, |bs0|, written)
      ensures w0 <= written && ValuesAt(buffers, written[|w0|..], out)
    {
      hide AllKept, AllGood, Spoiled, ResumesWritten, ClearIn, ValuesAt, Passed;
    }

    lemma Untouched(bs0: seq<Buffer>, w0: seq<Unit>, exact0: bool, i: nat, out: seq<int>)
      requires Halfway(bs0, w0, exact0, i, out) && i < currentIndex + 1
      ensures i < |buffers| && i < |bs0| && buffers[i] == bs0[i]
    {
      hide AllKept, AllGood, Spoiled, ResumesWritten, ClearIn, ValuesAt, Passed;
    }

    method OutputTurn(ghost bs0: seq<Buffer>, ghost w0: seq<Unit>, ghost exact0: bool, ghost intact: bool,
                      ghost rest: seq<Buffer>, i: nat, out: seq<int>)
      returns (out': seq<int>)
      requires i < currentIndex + 1 == |buffers| && Halfway(bs0, w0, exact0, i, out)
      requires intact ==> (forall b | b in bs0 :: b.invalid == []) && Remaining(rest, buffers[i..], out)
      modifies this`buffers, this`written, this`skipped, this`exact
      ensures |buffers| == |old(buffers)| && Halfway(bs0, w0, exact0, i + 1, out')
      ensures intact ==> Remaining(rest, buffers[i + 1..], out')
    {
      hide AllKept, Emitted, BufferGood, Has, Unwritten, Resumes, Spoiled, ResumesWritten, ClearIn, ValuesAt, Tagged, ValuesOf,
        UnitsOf, Passed;
      ghost var bs, w := buffers, written;
      Untouched(bs0, w0, exact0, i, out);
      var values := OutputBuffer(i);
      OutputMore(bs, i, buffers, w0, w, written, out, values);
      ClearMore(bs0, currentOutputIndex, i);
      ResumesMore(bs0, currentOutputIndex, i, w, Tagged(i, Emitted(bs[i].invalid, bs[i].output, bs[i].used)));
      out' := out + values;
      if intact {
        Regroup(out, values, Unwritten(buffers[i + 1..]));
      }
    }

    // ios_output: the values written to the file.
    method Output() returns (out: seq<int>)
      requires Valid()
      modifies this
      ensures Valid() && exact == (old(exact) && old(Clear()))
      ensures |buffers| == |old(buffers)| && forall i | 0 <= i < |buffers| ::
        buffers[i] == old(buffers)[i].(output := old(buffers)[i].used)
      ensures old(written) <= written && ValuesAt(buffers, written[|old(written)|..], out)
      ensures exact <==> written == AllKept(buffers, skipped)
      ensures ResumesWritten(old(buffers), old(currentOutputIndex), |old(buffers)|, written)
      ensures old(NothingTakenBack()) ==> out == old(Waiting())
      ensures Waiting() == []
    {
      hide AllKept, Emitted, BufferGood, Has, Unwritten, Resumes, Spoiled, ResumesWritten, ClearIn, ValuesAt;
      ghost var done, rest := buffers[..currentOutputIndex], buffers[currentOutputIndex..];
      WrittenOut(done);
      assert buffers == done + rest;
      UnwrittenJoin(done, rest);
      assert [] + Unwritten(rest) == Unwritten(rest);
      out := OutputBuffers();
      currentOutputIndex := currentIndex;
      WrittenOut(buffers);
      ExactIs();
    }

    // ios_get_fresh
    method GetFresh() returns (n: nat)
      requires Valid()
      ensures n == |Waiting()|
    {
      n := 0;
      for i := 0 to |buffers|
        invariant n == |Unwritten(buffers[..i])|
      {
        assert buffers[..i + 1][..i] == buffers[..i];
        n := n + (buffers[i].used - buffers[i].output);
      }
      assert buffers[..|buffers|] == buffers;
    }
  }

  // ----- where an output is not exact -----

  lemma {:induction false} WaitingAtLeast(bs: seq<Buffer>, i: nat)
    requires AllGood(bs) && i < |bs|
    ensures bs[i].used - bs[i].output <= |Unwritten(bs)|
    decreases |bs|
  {
    LastWaiting(bs);
    if i < |bs| - 1 {
      WaitingAtLeast(bs[..|bs| - 1], i);
    }
  }

  // Units are allocated when nothing is waiting, and the first of them is taken back: it is
  // written all the same.
  method TakeBackFirst(s: Store, qty: nat) returns (at: Unit)
    requires s.Valid() && s.Waiting() == [] && qty > 0
    modifies s
    ensures s.Valid() && !s.exact && s.written != AllKept(s.buffers, s.skipped) && at in s.written
  {
    hide AllKept, Unwritten, Spoiled, BufferGood, Emitted;
    var units := s.Alloc(qty);
    at := units[0];
    assert s.Waiting() == seq(qty, _ => 0);
    WaitingAtLeast(s.buffers, at.0);
    var ok := s.Unalloc(at, 1);
    ghost var bs := s.buffers;
    assert ResumesAt(bs, at.0) && ResumeUnit(bs, at.0) == at;
    var out := s.Output();
  }

  // The same in a new store, after a unit that is written as it should be.
  method SpoiledRun() returns (s: Store, at: Unit)
    ensures fresh(s) && s.Valid() && !s.exact && at in s.written
  {
    hide Store.Valid, AllKept, ResumesWritten, Unwritten;
    s := new Store();
    var units := s.Alloc(1);
    var out := s.Output();
    at := TakeBackFirst(s, 1);
  }
}
