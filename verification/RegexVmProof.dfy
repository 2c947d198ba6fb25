/**
 The matcher ends, and never touches anything but the jumps it rewrites: what every
 instruction keeps, and a measure every instruction lowers.
 */
module RegexVmProof {
  import opened RegexBytes
  import opened RegexSyntax
  import opened RegexGen
  import opened RegexNfa
  import opened RegexBlocks
  import opened RegexVm

  ghost predicate Program(P: Code) {
    WellFormedCode(P) && Simple(P, 0, |P|)
  }

  predicate Start(P: Code, a: nat) {
    StartIn(P, 0, |P|, a)
  }

  // A place the machine may be at: the start of an instruction, or the end of the code.
  predicate Place(P: Code, a: int) {
    a == |P| || (a >= 0 && Start(P, a))
  }

  // a ends a loop.
  predicate IsEnd(P: Code, a: int) {
    a >= 0 && EndsLoop(P, 0, |P|, a)
  }

  // b is the body of the loop that m ends.
  predicate IsBody(P: Code, b: int, m: nat) {
    IsEnd(P, m) && Head(P, m) + 3 == b
  }

  ghost predicate NoBody(P: Code, b: int) {
    forall m: nat :: !IsBody(P, b, m)
  }

  predicate Consumes(op: byte) {
    op == EXACTN || IsEater(op)
  }

  // ----- where instructions lead -----

  lemma ScannedIsPlace(P: Code, x: int)
    requires Program(P) && 0 <= x <= |P| && Scan(P, 0, x)
    ensures Place(P, x)
  {
    hide Closed, LoopShape, Entered, SimpleLoop;
    if x < |P| {
      ScanNext(P, 0, x, |P|);
    }
  }

  lemma EdgePlace(P: Code, a: nat, x: int)
    requires Program(P) && Start(P, a) && x in Edges(P, a)
    ensures Place(P, x) && (IsBack(P[a]) || a < x)
  {
    hide LoopShape, Entered, SimpleLoop, Edges;
    assert Closed(P, 0, |P|, a);
    ScannedIsPlace(P, x);
  }

  // The loop that m ends: head, body, end, one after the other.
  lemma LoopIs(P: Code, m: nat)
    requires Program(P) && IsEnd(P, m)
    ensures
      var l := Head(P, m);
      && l >= 0 && Start(P, l) && P[l] == ON_FAILURE_JUMP && Target(P, l) == m + 3
      && Start(P, l + 3) && Consumes(P[l + 3]) && (P[l + 3] == EXACTN ==> P[l + 4] == 1)
      && l + 3 + InsLen(P, l + 3) == m && Edges(P, m) == {l} && Place(P, m + 3)
  {
    hide Closed, Entered;
    assert LoopShape(P, 0, |P|, m) && SimpleLoop(P, m);
    var l := Head(P, m);
    assert Start(P, l) by {
      ScanNext(P, 0, l, m);
    }
    EdgePlace(P, l, l + 3);
    EdgePlace(P, l, m + 3);
  }

  // Only the body of a loop leads to its end.
  lemma EdgeToEnd(P: Code, a: nat, x: int)
    requires Program(P) && Start(P, a) && x in Edges(P, a) && IsEnd(P, x)
    ensures Consumes(P[a]) && IsBody(P, a, x)
  {
    hide Closed, LoopShape, SimpleLoop, Edges;
    assert Entered(P, 0, |P|, x);
    LoopIs(P, x);
    var b := Head(P, x) + 3;
    assert b <= a <= x;
    if b < a {
      ScanNext(P, 0, b, a);
    }
  }

  // Only its head, or a dummy jump, leads to the body of a loop.
  lemma EdgeToBody(P: Code, a: nat, x: int, m: nat)
    requires Program(P) && Start(P, a) && x in Edges(P, a) && IsBody(P, x, m)
    ensures (a == x - 3 && P[a] == ON_FAILURE_JUMP) || P[a] == DUMMY_FAILURE_JUMP
  {
    hide LoopShape, SimpleLoop, Edges;
    assert Entered(P, 0, |P|, m);
    LoopIs(P, m);
    if x <= a <= m {
      EdgePlace(P, a, x);
      if x < a {
        ScanNext(P, 0, x, a);
      }
    }
  }

  lemma SuccEdge(P: Code, t: Text, a: nat, i: nat, s: (nat, nat))
    requires a < |P| && i <= |t| && s in Succ(P, t, a, i)
    ensures s.0 in Edges(P, a) && s.1 <= |t|
    ensures if Consumes(P[a]) then s.1 > i else s.1 == i
  {
  }

  // ----- the measure -----

  // What lies ahead at one text position: the end of a loop counts as just before its head.
  function Weight(P: Code, a: nat): int {
    if IsEnd(P, a) then 2 * (|P| - Head(P, a)) + 1 else 2 * (|P| - a)
  }

  lemma SuccLower(P: Code, t: Text, a: nat, i: nat, s: (nat, nat))
    requires Program(P) && Start(P, a) && i <= |t| && s in Succ(P, t, a, i)
    ensures Place(P, s.0) && i <= s.1 <= |t|
    ensures s.1 == i ==> 0 <= Weight(P, s.0) < Weight(P, a)
  {
    hide Program, Succ, InsLen;
    SuccEdge(P, t, a, i, s);
    EdgePlace(P, a, s.0);
    if s.1 == i {
      if IsEnd(P, s.0) {
        EdgeToEnd(P, a, s.0);
      }
      if IsEnd(P, a) {
        LoopIs(P, a);
      }
    }
  }

  // How much exploring is left at a place: every way on, and one for each failure point.
  ghost function Cost(P: Code, t: Text, a: nat, i: nat): (c: nat)
    requires Program(P) && Place(P, a) && i <= |t|
    ensures c >= 1
    decreases |t| - i, Weight(P, a)
  {
    if a == |P| then 1
    else
      var S := Succ(P, t, a, i);
      var c0 := if |S| > 0 then SuccLower(P, t, a, i, S[0]); 1 + Cost(P, t, S[0].0, S[0].1) else 0;
      var c1 := if |S| > 1 then SuccLower(P, t, a, i, S[1]); 1 + Cost(P, t, S[1].0, S[1].1) else 0;
      2 + c0 + c1
  }

  predicate PointFits(P: Code, t: Text, f: FailurePoint) {
    f.Point? ==> Place(P, f.pat) && f.str <= |t| && !IsEnd(P, f.pat)
  }

  ghost predicate PointGood(P: Code, t: Text, f: FailurePoint) {
    PointFits(P, t, f) && (f.Point? ==> NoBody(P, f.pat))
  }

  ghost predicate StackGood(P: Code, t: Text, stack: seq<FailurePoint>) {
    forall f | f in stack :: PointGood(P, t, f)
  }

  ghost function StackCost(P: Code, t: Text, stack: seq<FailurePoint>): nat
    requires Program(P) && StackGood(P, t, stack)
    decreases |stack|
  {
    if stack == [] then 0
    else
      var f := stack[|stack| - 1];
      assert f in stack && PointGood(P, t, f);
      StackCost(P, t, stack[..|stack| - 1]) + if f.Dummy? then 1 else 1 + Cost(P, t, f.pat, f.str)
  }

  // ----- the rewritten code -----

  // Q is P with some jumps replaced by what they are decided to be.
  ghost predicate Rewritten(P: Code, Q: Code) {
    && |Q| == |P|
    && forall x: nat | x < |P| :: Q[x] == P[x] || (IsEnd(P, x) && Q[x] == Choice(P, x))
  }

  // Away from the rewritten opcodes the bytes of an instruction are those of P.
  lemma SameByte(P: Code, Q: Code, a: nat, x: int)
    requires Program(P) && Rewritten(P, Q) && Start(P, a) && a <= x < a + InsLen(P, a)
    requires x > a || !IsEnd(P, a)
    ensures Q[x] == P[x]
  {
    hide Program, Choice, InsLen;
    if x > a && IsEnd(P, x) {
      ScanNext(P, 0, a, x);
    }
  }

  lemma SameOp(P: Code, Q: Code, a: nat)
    requires Program(P) && Rewritten(P, Q) && Start(P, a)
    ensures InsLen(Q, a) == InsLen(P, a)
    ensures if IsEnd(P, a) then IsBack(Q[a]) else Q[a] == P[a]
    ensures InsLen(P, a) == 3 ==> Target(Q, a) == Target(P, a)
  {
    hide Program;
    forall x | a <= x < a + InsLen(P, a) && (x > a || !IsEnd(P, a))
      ensures Q[x] == P[x]
    {
      SameByte(P, Q, a, x);
    }
  }

  // The instructions that are not backward jumps are the same, byte for byte.
  lemma SameIns(P: Code, Q: Code, a: nat)
    requires Program(P) && Rewritten(P, Q) && Start(P, a) && !IsEnd(P, a)
    ensures InsLen(Q, a) == InsLen(P, a) && Q[a..a + InsLen(P, a)] == P[a..a + InsLen(P, a)]
  {
    hide Program, InsLen;
    SameOp(P, Q, a);
    forall x | a <= x < a + InsLen(P, a)
      ensures Q[x] == P[x]
    {
      SameByte(P, Q, a, x);
    }
  }

  lemma SameSucc(P: Code, Q: Code, t: Text, a: nat, i: nat)
    requires Program(P) && Rewritten(P, Q) && Start(P, a) && i <= |t|
    ensures Succ(Q, t, a, i) == Succ(P, t, a, i)
  {
    hide Program, WellFormedCode, Simple, Choice;
    SameOp(P, Q, a);
    if !IsEnd(P, a) {
      SameIns(P, Q, a);
      SliceOfSlice(P, Q, a, InsLen(P, a));
    }
  }

  lemma SliceOfSlice(P: Code, Q: Code, a: nat, n: nat)
    requires a + n <= |P| == |Q| && P[a..a + n] == Q[a..a + n]
    ensures n >= 2 ==> P[a + 2..a + n] == Q[a + 2..a + n]
    ensures forall x | a <= x < a + n :: P[x] == Q[x]
  {
    forall x | a <= x < a + n
      ensures P[x] == Q[x]
    {
      assert P[x] == P[a..a + n][x - a] && Q[x] == Q[a..a + n][x - a];
    }
  }

  // A place that is no end of a loop, and what follows it when it consumes nothing.
  lemma NextPlace(P: Code, a: nat, x: int)
    requires Program(P) && Start(P, a) && !Consumes(P[a]) && x in Edges(P, a)
    ensures Place(P, x) && !IsEnd(P, x)
  {
    hide Program, Edges;
    EdgePlace(P, a, x);
    if IsEnd(P, x) {
      EdgeToEnd(P, a, x);
    }
  }

  lemma SkipPlace(P: Code, a: nat)
    requires Program(P) && Start(P, a)
    ensures IsMemory(P[a]) ==> Place(P, a + 3) && !IsEnd(P, a + 3)
    ensures P[a] == DUMMY_FAILURE_JUMP ==> Place(P, a + 6) && !IsEnd(P, a + 6)
  {
    assert SimpleAt(P, a);
    hide Program;
    if IsMemory(P[a]) {
      NextPlace(P, a, a + 3);
    } else if P[a] == DUMMY_FAILURE_JUMP {
      NextPlace(P, a, a + 6);
    }
  }

  lemma {:induction false} SkipSame(P: Code, Q: Code, a: nat)
    requires Program(P) && Rewritten(P, Q) && Place(P, a) && !IsEnd(P, a)
    ensures SkipMemory(Q, a) == SkipMemory(P, a)
    ensures Place(P, SkipMemory(P, a)) && !IsEnd(P, SkipMemory(P, a))
    decreases |P| - a
  {
    hide Program, Rewritten, IsEnd, Place;
    if a < |P| {
      PlaceStart(P, a);
      SameOp(P, Q, a);
      SkipPlace(P, a);
      RewrittenLength(P, Q);
      if a + 2 < |P| && IsMemory(P[a]) {
        SkipSame(P, Q, a + 3);
      } else if a + 6 < |P| && P[a] == DUMMY_FAILURE_JUMP {
        SkipSame(P, Q, a + 6);
      }
    } else {
      RewrittenLength(P, Q);
      PlaceEnd(P, a);
    }
  }

  lemma RewrittenLength(P: Code, Q: Code)
    requires Rewritten(P, Q)
    ensures |Q| == |P|
  {
  }

  lemma PlaceStart(P: Code, a: int)
    requires Place(P, a) && a != |P|
    ensures a >= 0 && Start(P, a) && a < |P|
  {
  }

  lemma PlaceEnd(P: Code, a: int)
    requires Place(P, a)
    ensures a <= |P|
  {
  }

  // The decision depends on bytes that no rewriting changes.
  lemma PopsSame(P: Code, Q: Code, m: nat)
    requires Program(P) && Rewritten(P, Q) && IsEnd(P, m)
    ensures Pops(Q, m) == Pops(P, m) && Head(Q, m) == Head(P, m)
  {
    hide Program, Rewritten, ApartFromChar, ApartFromSet;
    LoopIs(P, m);
    SameOp(P, Q, m);
    RewrittenLength(P, Q);
    var l := Head(P, m);
    var b := l + 3;
    NextPlace(P, l, m + 3);
    SkipSame(P, Q, m + 3);
    var p2 := SkipMemory(P, m + 3);
    BodyNotEnd(P, b);
    SameMap(P, Q, b);
    if p2 != |P| {
      PlaceStart(P, p2);
      SameMap(P, Q, p2);
      ApartSame(P, Q, b, p2);
    }
  }

  lemma BodyNotEnd(P: Code, b: nat)
    requires b < |P| && Consumes(P[b])
    ensures !IsEnd(P, b)
  {
  }

  // All the bytes of one instruction agree.
  predicate Agree(P: Code, Q: Code, a: nat)
    requires a < |P|
  {
    && |Q| == |P| && InsLen(P, a) > 0
    && forall x | a <= x < a + InsLen(P, a) :: ByteAt(Q, x) == ByteAt(P, x)
  }

  lemma SameMap(P: Code, Q: Code, a: nat)
    requires Program(P) && Rewritten(P, Q) && Start(P, a) && !IsEnd(P, a)
    ensures Agree(P, Q, a)
  {
    hide Program, InsLen;
    forall x | a <= x < a + InsLen(P, a)
      ensures ByteAt(Q, x) == ByteAt(P, x)
    {
      SameByte(P, Q, a, x);
    }
  }

  lemma AgreeAt(P: Code, Q: Code, a: nat, x: nat)
    requires a < |P| && Agree(P, Q, a) && x < InsLen(P, a)
    ensures ByteAt(Q, a + x) == ByteAt(P, a + x)
  {
  }

  lemma AgreeMap(P: Code, Q: Code, a: nat)
    requires a < |P| && Agree(P, Q, a) && (P[a] == CHARSET || P[a] == CHARSET_NOT)
    ensures ByteAt(Q, a) == P[a] && ByteAt(Q, a + 1) == ByteAt(P, a + 1)
    ensures forall x: nat | x < ByteAt(P, a + 1) :: MapByte(Q, a, x) == MapByte(P, a, x)
  {
    AgreeAt(P, Q, a, 0);
    AgreeAt(P, Q, a, 1);
    forall x: nat | x < ByteAt(P, a + 1)
      ensures MapByte(Q, a, x) == MapByte(P, a, x)
    {
      AgreeAt(P, Q, a, 2 + x);
    }
  }

  lemma AgreeChar(P: Code, Q: Code, a: nat)
    requires a < |P| && Agree(P, Q, a) && P[a] == EXACTN
    ensures ByteAt(Q, a) == EXACTN && ByteAt(Q, a + 1) == ByteAt(P, a + 1) && ByteAt(Q, a + 2) == ByteAt(P, a + 2)
  {
    AgreeAt(P, Q, a, 0);
    AgreeAt(P, Q, a, 1);
    AgreeAt(P, Q, a, 2);
  }

  lemma ApartSame(P: Code, Q: Code, b: nat, p2: nat)
    requires b < |P| && p2 < |P| && Agree(P, Q, b) && Agree(P, Q, p2) && Consumes(P[b])
    ensures ByteAt(Q, p2) == ByteAt(P, p2)
    ensures P[p2] == EXACTN ==>
      ByteAt(Q, p2 + 2) == ByteAt(P, p2 + 2)
      && ApartFromChar(Q, b, ByteAt(P, p2 + 2)) == ApartFromChar(P, b, ByteAt(P, p2 + 2))
    ensures P[p2] == CHARSET ==> ApartFromSet(Q, b, p2) == ApartFromSet(P, b, p2)
  {
    hide Agree, Bit, Within, Meets;
    AgreeFirst(P, Q, p2);
    AgreeFirst(P, Q, b);
    if P[b] == EXACTN {
      AgreeChar(P, Q, b);
    } else if P[b] == CHARSET || P[b] == CHARSET_NOT {
      AgreeMap(P, Q, b);
    }
    if P[p2] == EXACTN {
      AgreeChar(P, Q, p2);
    } else if P[p2] == CHARSET {
      AgreeMap(P, Q, p2);
    }
  }

  lemma AgreeFirst(P: Code, Q: Code, a: nat)
    requires a < |P| && Agree(P, Q, a)
    ensures ByteAt(Q, a) == P[a]
  {
    AgreeAt(P, Q, a, 0);
  }

  // The forced exit is never taken: no loop ends just after a group.
  lemma NoForcedExit(P: Code, a: nat)
    requires Program(P) && Start(P, a) && P[a] == STOP_MEMORY
    ensures a + 3 <= |P| && !ForcedExit(P, a)
  {
    NextPlace(P, a, a + 3);
    if a + 3 < |P| {
      PlaceStart(P, a + 3);
      assert SimpleAt(P, a + 3);
    }
  }
}
