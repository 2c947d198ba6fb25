/**
 The matcher finds the longest match. Its exhaustive backtracking loses nothing, except
 through two defects of the test at a `maybe_pop_jump'; without them it returns, for every
 text and position, the end of the longest prefix in the pattern's language.
 */
module RegexMatch {
  import opened Wrappers
  import opened RegexBytes
  import opened RegexSyntax
  import opened RegexGen
  import opened RegexNfa
  import opened RegexMeaning
  import opened RegexBlocks
  import opened RegexVm
  import opened RegexVmProof
  import opened RegexVmRun

  // ----- the decision at the end of a loop -----

  // The bitmap of the set at a.
  function MapAt(P: Code, a: nat): seq<byte>
    requires a + 1 < |P| && a + 2 + P[a + 1] <= |P|
  {
    P[a + 2..a + 2 + P[a + 1]]
  }

  // Whether the instruction at a can begin by matching c.
  predicate Begins(P: Code, a: nat, c: byte)
    requires a < |P| && InsLen(P, a) > 0
  {
    if P[a] == EXACTN then P[a + 2] == c else Eats(P, a, c)
  }

  // The character of a literal loop is in the set that follows, and character 1 is not: the
  // count byte of the exactn, 1, is looked up in place of the character.
  predicate LostByCountByte(P: Code, m: nat)
    requires Program(P) && IsEnd(P, m)
  {
    LoopIs(P, m);
    AfterLoop(P, m);
    var b := Head(P, m) + 3;
    var p2 := SkipMemory(P, m + 3);
    && p2 < |P| && P[p2] == CHARSET && P[b] == EXACTN
    && MapHas(MapAt(P, p2), P[b + 2]) && !MapHas(MapAt(P, p2), 1)
  }

  // The loop is over a set with a bitmap of 32 bytes, whose 256 bits become 0 in a byte, and
  // the character that follows is in the set.
  predicate LostByFullMap(P: Code, m: nat)
    requires Program(P) && IsEnd(P, m)
  {
    LoopIs(P, m);
    AfterLoop(P, m);
    var b := Head(P, m) + 3;
    var p2 := SkipMemory(P, m + 3);
    && p2 < |P| && P[p2] == EXACTN && P[b] == CHARSET
    && P[b + 1] == 32 && MapHas(MapAt(P, b), P[p2 + 2])
  }

  lemma AfterLoop(P: Code, m: nat)
    requires Program(P) && IsEnd(P, m)
    ensures
      var p2 := SkipMemory(P, m + 3);
      Place(P, p2) && !IsEnd(P, p2)
  {
    hide Program, IsEnd, Place;
    LoopIs(P, m);
    NextPlace(P, Head(P, m), m + 3);
    SkipSame(P, P, m + 3);
  }

  // The loop and what follows it can match the same character.
  ghost predicate Overlap(P: Code, m: nat)
    requires Program(P) && IsEnd(P, m)
  {
    LoopIs(P, m);
    AfterLoop(P, m);
    var b := Head(P, m) + 3;
    var p2 := SkipMemory(P, m + 3);
    p2 < |P| && Consumes(P[p2]) && exists c: byte :: Eats(P, b, c) && Begins(P, p2, c)
  }

  lemma MapByteIs(P: Code, a: nat, c: byte)
    requires a + 1 < |P| && a + 2 + P[a + 1] <= |P|
    ensures MapHas(MapAt(P, a), c) <==> c / 8 < P[a + 1] && Bit(MapByte(P, a, c / 8), c % 8)
  {
  }

  // The sets at b and at p2, and what the tests on their bitmaps say about one character.
  lemma SetsApart(P: Code, b: nat, p2: nat, c: byte)
    requires b < |P| && InsLen(P, b) > 0 && p2 < |P| && InsLen(P, p2) > 0
    requires P[p2] == CHARSET && (P[b] == CHARSET || P[b] == CHARSET_NOT)
    requires ApartFromSet(P, b, p2)
    ensures !(Eats(P, b, c) && Eats(P, p2, c))
  {
    MapByteIs(P, b, c);
    MapByteIs(P, p2, c);
    if MapHas(MapAt(P, p2), c) {
      var x := c / 8;
      var k: nat := c % 8;
      assert Bit(MapByte(P, p2, x), k);
      if P[b] == CHARSET_NOT {
        ZeroHasNoBits(k);
        assert Within(MapByte(P, p2, x), MapByte(P, b, x));
        assert Bit(MapByte(P, b, x), k);
      } else if x < P[b + 1] {
        assert !Meets(MapByte(P, p2, x), MapByte(P, b, x));
      }
    }
  }

  lemma CharApart(P: Code, b: nat, c: byte)
    requires b + 1 < |P| && InsLen(P, b) > 0 && P[b + 1] <= 32
    requires P[b] == CHARSET || P[b] == CHARSET_NOT
    ensures ApartFromChar(P, b, c) && Eats(P, b, c)
      <==> P[b] == CHARSET && P[b + 1] == 32 && MapHas(MapAt(P, b), c)
  {
    MapByteIs(P, b, c);
  }

  lemma CountByteTest(P: Code, b: nat, p2: nat)
    requires b + 1 < |P| && P[b] == EXACTN && P[b + 1] == 1
    requires p2 < |P| && P[p2] == CHARSET && InsLen(P, p2) > 0
    ensures ApartFromSet(P, b, p2) <==> !MapHas(MapAt(P, p2), 1)
  {
    MapByteIs(P, p2, 1);
  }

  // The decision to discard failure points is wrong, that is, taken although the loop and
  // what follows can match the same character, exactly in the two cases above.
  lemma DecisionExact(P: Code, m: nat)
    requires Program(P) && IsEnd(P, m)
    requires SkipMemory(P, m + 3) < |P|
    ensures Pops(P, m) && Overlap(P, m) <==> LostByCountByte(P, m) || LostByFullMap(P, m)
  {
    LoopIs(P, m);
    AfterLoop(P, m);
    var b := Head(P, m) + 3;
    var p2 := SkipMemory(P, m + 3);
    PlaceStart(P, p2);
    assert SimpleAt(P, b) && SimpleAt(P, p2);
    hide Program, SimpleAt, ApartFromSet, ApartFromChar, MapHas, Place;
    if P[p2] == EXACTN {
      AfterLoopChar(P, m, b, p2);
    } else if P[p2] == CHARSET {
      AfterLoopSet(P, m, b, p2);
    }
  }

  lemma AfterLoopChar(P: Code, m: nat, b: nat, p2: nat)
    requires Program(P) && IsEnd(P, m) && b == Head(P, m) + 3 && p2 == SkipMemory(P, m + 3) < |P|
    requires b < |P| && InsLen(P, b) > 0 && Consumes(P[b]) && (P[b] == EXACTN ==> P[b + 1] == 1)
    requires P[b] == CHARSET || P[b] == CHARSET_NOT ==> b + 1 < |P| && P[b + 1] <= 32
    requires InsLen(P, p2) > 0 && P[p2] == EXACTN
    ensures Pops(P, m) && Overlap(P, m) <==> LostByFullMap(P, m)
    ensures !LostByCountByte(P, m)
  {
    hide Program, MapHas, IsEnd, Head;
    var c := P[p2 + 2];
    assert Begins(P, p2, c);
    if P[b] == CHARSET || P[b] == CHARSET_NOT {
      CharApart(P, b, c);
    }
    assert Pops(P, m) <==> ApartFromChar(P, b, c);
    assert Overlap(P, m) <==> Eats(P, b, c);
  }

  lemma AfterLoopSet(P: Code, m: nat, b: nat, p2: nat)
    requires Program(P) && IsEnd(P, m) && b == Head(P, m) + 3 && p2 == SkipMemory(P, m + 3) < |P|
    requires b < |P| && InsLen(P, b) > 0 && Consumes(P[b]) && (P[b] == EXACTN ==> P[b + 1] == 1)
    requires InsLen(P, p2) > 0 && P[p2] == CHARSET
    ensures Pops(P, m) && Overlap(P, m) <==> LostByCountByte(P, m)
    ensures !LostByFullMap(P, m)
  {
    hide Program, MapHas, IsEnd, Head, Bit, Within, Meets;
    assert Pops(P, m) <==> ApartFromSet(P, b, p2);
    if P[b] == EXACTN {
      CountByteTest(P, b, p2);
      var c := P[b + 2];
      assert Eats(P, b, c);
      assert Overlap(P, m) <==> Eats(P, p2, c);
    } else if P[b] == ANYCHAR {
      assert !ApartFromSet(P, b, p2);
    } else if ApartFromSet(P, b, p2) {
      forall c: byte
        ensures !(Eats(P, b, c) && Begins(P, p2, c))
      {
        SetsApart(P, b, p2, c);
      }
    }
  }

  // The decisions that discard failure points are all right ones.
  ghost predicate Harmless(P: Code)
    requires Program(P)
  {
    forall m: nat | IsEnd(P, m) :: !LostByCountByte(P, m) && !LostByFullMap(P, m)
  }

  // ----- accepting, step by step -----

  lemma AccEnd(P: Code, t: Text, i: nat, j: nat)
    requires i <= |t|
    ensures Acc(P, t, |P|, i, j) <==> i == j
  {
    if i == j {
      assert AccN(P, t, |P|, i, j, 0);
    }
  }

  lemma AccStep(P: Code, t: Text, a: nat, i: nat, j: nat)
    requires a < |P| && i <= |t|
    ensures
      var S := Succ(P, t, a, i);
      Acc(P, t, a, i, j) <==>
        (|S| > 0 && Acc(P, t, S[0].0, S[0].1, j)) || (|S| > 1 && Acc(P, t, S[1].0, S[1].1, j))
  {
    hide Succ;
    var S := Succ(P, t, a, i);
    if |S| > 0 && Acc(P, t, S[0].0, S[0].1, j) {
      var n: nat :| AccN(P, t, S[0].0, S[0].1, j, n);
      assert AccN(P, t, a, i, j, n + 1);
    }
    if |S| > 1 && Acc(P, t, S[1].0, S[1].1, j) {
      var n: nat :| AccN(P, t, S[1].0, S[1].1, j, n);
      assert AccN(P, t, a, i, j, n + 1);
    }
    if Acc(P, t, a, i, j) {
      var n: nat :| AccN(P, t, a, i, j, n);
      var k :| 0 <= k < |S| && AccN(P, t, S[k].0, S[k].1, j, n - 1);
      assert k == 0 || k == 1;
    }
  }

  lemma {:induction false} AccNBound(P: Code, t: Text, a: nat, i: nat, j: nat, n: nat)
    requires i <= |t| && AccN(P, t, a, i, j, n)
    ensures i <= j <= |t|
    decreases n
  {
    if !(a == |P| && i == j) {
      var S := Succ(P, t, a, i);
      var k :| 0 <= k < |S| && AccN(P, t, S[k].0, S[k].1, j, n - 1);
      assert S[k] in S;
      AccNBound(P, t, S[k].0, S[k].1, j, n - 1);
    }
  }

  lemma AccBound(P: Code, t: Text, a: nat, i: nat, j: nat)
    requires i <= |t| && Acc(P, t, a, i, j)
    ensures i <= j <= |t|
  {
    var n: nat :| AccN(P, t, a, i, j, n);
    AccNBound(P, t, a, i, j, n);
  }

  // Skipping group commands and the jumps before the body of a `+' loses nothing.
  lemma {:induction false} SkipAcc(P: Code, t: Text, a: nat, i: nat, j: nat)
    requires Program(P) && Place(P, a) && !IsEnd(P, a) && i <= |t|
    ensures Acc(P, t, a, i, j) <==> Acc(P, t, SkipMemory(P, a), i, j)
    decreases |P| - a
  {
    PlaceEnd(P, a);
    if a < |P| {
      PlaceStart(P, a);
      assert SimpleAt(P, a);
      hide Program, Place, IsEnd, SimpleAt, Acc;
      SkipPlace(P, a);
      if a + 2 < |P| && IsMemory(P[a]) {
        assert Succ(P, t, a, i) == [(a + 3, i)];
        AccStep(P, t, a, i, j);
        SkipAcc(P, t, a + 3, i, j);
      } else if a + 6 < |P| && P[a] == DUMMY_FAILURE_JUMP {
        assert Succ(P, t, a, i) == [(a + 6, i)];
        AccStep(P, t, a, i, j);
        SkipAcc(P, t, a + 6, i, j);
      }
    }
  }

  lemma AccBegins(P: Code, t: Text, a: nat, i: nat, j: nat)
    requires a < |P| && InsLen(P, a) > 0 && Consumes(P[a]) && i <= |t| && Acc(P, t, a, i, j)
    ensures i < |t| && Begins(P, a, t[i])
  {
    AccStep(P, t, a, i, j);
    if P[a] == EXACTN {
      var n := P[a + 1];
      assert t[i..i + n][0] == t[i] && P[a + 2..a + 2 + n][0] == P[a + 2];
    }
  }

  // A match goes on after the loop only where the code ends.
  lemma PopsAtEnd(P: Code, t: Text, m: nat, d: nat, j: nat)
    requires Program(P) && IsEnd(P, m) && Pops(P, m)
    requires !LostByCountByte(P, m) && !LostByFullMap(P, m)
    requires JustEaten(P, t, m, d) && Acc(P, t, m + 3, d - 1, j)
    ensures SkipMemory(P, m + 3) == |P|
  {
    hide Program, Acc, LostByCountByte, LostByFullMap, IsEnd, SkipMemory;
    AfterLoop(P, m);
    var p2 := SkipMemory(P, m + 3);
    if p2 != |P| {
      LoopIs(P, m);
      NextPlace(P, Head(P, m), m + 3);
      SkipAcc(P, t, m + 3, d - 1, j);
      PlaceStart(P, p2);
      AccBegins(P, t, p2, d - 1, j);
      DecisionExact(P, m);
    }
  }

  // Discarding the way out of a loop before its last round loses no longest match.
  lemma PopLosesNothing(P: Code, t: Text, m: nat, d: nat, j: nat)
    requires Program(P) && IsEnd(P, m) && Pops(P, m)
    requires !LostByCountByte(P, m) && !LostByFullMap(P, m)
    requires JustEaten(P, t, m, d) && Acc(P, t, m + 3, d - 1, j)
    ensures Head(P, m) >= 0 && j <= d && Acc(P, t, Head(P, m), d, d)
  {
    hide Program, Acc, Pops, LostByCountByte, LostByFullMap;
    PopsAtEnd(P, t, m, d, j);
    LoopIs(P, m);
    NextPlace(P, Head(P, m), m + 3);
    SkipAcc(P, t, m + 3, d - 1, j);
    AccEnd(P, t, d - 1, j);
    AccEnd(P, t, d, d);
    SkipAcc(P, t, m + 3, d, d);
    var l := Head(P, m);
    assert Succ(P, t, l, d) == [(l + 3, d), (m + 3, d)];
    AccStep(P, t, l, d, d);
  }

  // ----- the positions a state of the machine still leads to -----

  ghost predicate FromStack(P: Code, t: Text, stack: seq<FailurePoint>, j: nat) {
    exists f | f in stack :: f.Point? && f.str <= |t| && Acc(P, t, f.pat, f.str, j)
  }

  ghost predicate FailReaches(P: Code, t: Text, vm: Vm, j: nat) {
    FromStack(P, t, vm.stack, j) || vm.best == Some(j)
  }

  ghost predicate Reaches(P: Code, t: Text, vm: Vm, j: nat)
    requires vm.d <= |t|
  {
    Acc(P, t, vm.p, vm.d, j) || FailReaches(P, t, vm, j)
  }

  lemma FromPush(P: Code, t: Text, stack: seq<FailurePoint>, f: FailurePoint, j: nat)
    requires f.Point? ==> f.str <= |t|
    ensures FromStack(P, t, stack + [f], j) <==>
      FromStack(P, t, stack, j) || (f.Point? && Acc(P, t, f.pat, f.str, j))
  {
    hide Acc;
    if FromStack(P, t, stack, j) {
      var g :| g in stack && g.Point? && g.str <= |t| && Acc(P, t, g.pat, g.str, j);
      assert g in stack + [f];
    }
    if f.Point? && Acc(P, t, f.pat, f.str, j) {
      assert f in stack + [f];
    }
  }

  lemma FromPop(P: Code, t: Text, stack: seq<FailurePoint>, j: nat)
    requires stack != []
    requires stack[|stack| - 1].Point? ==> stack[|stack| - 1].str <= |t|
    ensures
      var f := stack[|stack| - 1];
      FromStack(P, t, stack, j) <==>
        FromStack(P, t, stack[..|stack| - 1], j) || (f.Point? && Acc(P, t, f.pat, f.str, j))
  {
    hide FromStack;
    var f := stack[|stack| - 1];
    FromPush(P, t, stack[..|stack| - 1], f, j);
    assert stack[..|stack| - 1] + [f] == stack;
  }

  // ----- soundness of one step -----

  lemma ExecSound(P: Code, t: Text, vm: Vm, j: nat)
    requires Inv(P, t, vm)
    ensures
      match Exec(t, vm)
      case Next(vm') => vm'.d <= |t| && (Reaches(P, t, vm', j) ==> Reaches(P, t, vm, j))
      case Fails(vm') => FailReaches(P, t, vm', j) ==> Reaches(P, t, vm, j)
      case Done(r) => r == Some(j) ==> Reaches(P, t, vm, j)
  {
    hide Program, Rewritten, StackGood, InLoop, Place, StackCost, Exec, Succ, Acc, FromStack;
    ExecKeeps(P, t, vm);
    if vm.p == |P| {
      AccEnd(P, t, vm.d, j);
      RewrittenLength(P, vm.code);
      assert Exec(t, vm) == AtEnd(t, vm) by {
        ExecAtEnd(t, vm);
      }
    } else {
      StartFacts(P, t, vm);
      AccStep(P, t, vm.p, vm.d, j);
      var op := vm.code[vm.p];
      if Consumes(op) {
        Eating(P, t, vm);
      } else if op == ON_FAILURE_JUMP {
        Branching(P, t, vm);
        FromPush(P, t, vm.stack, Point(Target(P, vm.p), vm.d), j);
      } else if IsBack(op) {
        Looping(P, t, vm);
        LoopSucc(P, t, vm.p, vm.d);
        LoopSound(P, t, vm, j);
      } else {
        Passing(P, t, vm);
        FromPush(P, t, vm.stack, Dummy, j);
        assert vm.stack + [] == vm.stack;
      }
    }
  }

  lemma ExecAtEnd(t: Text, vm: Vm)
    requires vm.p == |vm.code|
    ensures Exec(t, vm) == AtEnd(t, vm)
  {
  }

  lemma LoopSucc(P: Code, t: Text, m: nat, d: nat)
    requires Program(P) && IsEnd(P, m) && d <= |t|
    ensures m < |P| && Head(P, m) >= 0 && Succ(P, t, m, d) == [(Head(P, m) as nat, d)]
  {
    LoopIs(P, m);
  }

  lemma LoopSound(P: Code, t: Text, vm: Vm, j: nat)
    requires Inv(P, t, vm) && vm.p < |vm.code| && IsEnd(P, vm.p) && Head(P, vm.p) >= 0
    ensures FailReaches(P, t, LoopBack(P, vm), j) ==> FailReaches(P, t, vm, j)
  {
    hide Program, Rewritten, InLoop, Place, Acc, FromStack, Pops, StackCost;
    if vm.stack != [] {
      PopCost(P, t, vm.stack);
      FromPop(P, t, vm.stack, j);
    }
  }

  lemma BacktrackSound(P: Code, t: Text, vm: Vm, j: nat)
    requires InvFail(P, t, vm)
    ensures
      match Backtrack(vm)
      case Next(vm') => vm'.d <= |t| && (Reaches(P, t, vm', j) <==> FailReaches(P, t, vm, j))
      case Fails(vm') => FailReaches(P, t, vm', j) <==> FailReaches(P, t, vm, j)
      case Done(r) => r == Some(j) <==> FailReaches(P, t, vm, j)
  {
    hide Program, Rewritten, StackGood, Place, Acc, Backtrack;
    BacktrackIs(P, t, vm);
    if vm.stack != [] {
      PopCost(P, t, vm.stack);
      FromPop(P, t, vm.stack, j);
    }
  }

  // What the matcher returns is the end of a match.
  lemma {:induction false} RunSound(P: Code, t: Text, vm: Vm)
    requires Inv(P, t, vm) && Run(P, t, vm).Some?
    ensures Reaches(P, t, vm, Run(P, t, vm).value)
    decreases Measure(P, t, vm), 1
  {
    hide Program, InvFail, Inv, Reaches, FailReaches, Exec;
    ExecKeeps(P, t, vm);
    ExecSound(P, t, vm, Run(P, t, vm).value);
    match Exec(t, vm)
    case Next(vm') => RunSound(P, t, vm');
    case Fails(vm') => RunFailSound(P, t, vm');
    case Done(r) =>
  }

  lemma {:induction false} RunFailSound(P: Code, t: Text, vm: Vm)
    requires InvFail(P, t, vm) && RunFail(P, t, vm).Some?
    ensures FailReaches(P, t, vm, RunFail(P, t, vm).value)
    decreases StackCost(P, t, vm.stack), 0
  {
    hide Program, InvFail, Inv, Reaches, FailReaches, Backtrack;
    BacktrackKeeps(P, t, vm);
    BacktrackSound(P, t, vm, RunFail(P, t, vm).value);
    match Backtrack(vm)
    case Next(vm') => RunSound(P, t, vm');
    case Fails(vm') => RunFailSound(P, t, vm');
    case Done(r) =>
  }

  // ----- completeness of one step -----

  lemma StackBound(P: Code, t: Text, stack: seq<FailurePoint>, j: nat)
    requires FromStack(P, t, stack, j)
    ensures j <= |t| && stack != []
  {
    var f :| f in stack && f.Point? && f.str <= |t| && Acc(P, t, f.pat, f.str, j);
    AccBound(P, t, f.pat, f.str, j);
  }

  lemma EndComplete(P: Code, t: Text, vm: Vm, j: nat) returns (j': nat)
    requires Inv(P, t, vm) && vm.p == |P| && Reaches(P, t, vm, j)
    ensures j <= j'
    ensures
      match Exec(t, vm)
      case Next(_) => false
      case Fails(vm') => FailReaches(P, t, vm', j')
      case Done(r) => r == Some(j')
  {
    hide Program, StackGood, InLoop, Place, Acc, FromStack, Exec;
    AccEnd(P, t, vm.d, j);
    RewrittenLength(P, vm.code);
    ExecAtEnd(t, vm);
    if FromStack(P, t, vm.stack, j) {
      StackBound(P, t, vm.stack, j);
    }
    j' := vm.d;
    if vm.d < |t| && vm.stack != [] && FromStack(P, t, vm.stack, j) {
      j' := j;
    } else if vm.d < |t| && vm.best.Some? && vm.d <= vm.best.value {
      j' := vm.best.value;
    }
  }

  lemma LoopTop(P: Code, t: Text, vm: Vm)
    requires Inv(P, t, vm) && IsEnd(P, vm.p)
    ensures vm.stack != [] && JustEaten(P, t, vm.p, vm.d)
    ensures
      var f := vm.stack[|vm.stack| - 1];
      f.Point? ==> f.pat == vm.p + 3 && f.str == vm.d - 1 <= |t|
  {
    hide Program, Rewritten, StackGood, JustEaten;
  }

  lemma LoopComplete(P: Code, t: Text, vm: Vm, j: nat) returns (j': nat)
    requires Inv(P, t, vm) && Harmless(P) && vm.p < |vm.code| && IsEnd(P, vm.p) && Head(P, vm.p) >= 0
    requires FailReaches(P, t, vm, j)
    ensures j <= j' && Reaches(P, t, LoopBack(P, vm), j')
  {
    hide IsEnd, Head, Acc, Place, Target, FromStack, Choice, JustEaten, SkipMemory, MapHas, WellFormedCode, Simple,
      ApartFromChar, ApartFromSet, AccN;
    LoopTop(P, t, vm);
    assert !LostByCountByte(P, vm.p) && !LostByFullMap(P, vm.p);
    assert vm.d <= |t| && Program(P);
    hide Inv, Program, Acc, FromStack, Pops, IsEnd, JustEaten, Choice, LostByCountByte, LostByFullMap, Harmless;
    j' := j;
    FromPop(P, t, vm.stack, j);
    var f := vm.stack[|vm.stack| - 1];
    if Pops(P, vm.p) && f.Point? && Acc(P, t, f.pat, f.str, j) {
      PopLosesNothing(P, t, vm.p, vm.d, j);
      j' := vm.d;
    }
  }

  lemma ExecComplete(P: Code, t: Text, vm: Vm, j: nat) returns (j': nat)
    requires Inv(P, t, vm) && Harmless(P) && Reaches(P, t, vm, j)
    ensures j <= j'
    ensures
      match Exec(t, vm)
      case Next(vm') => vm'.d <= |t| && Reaches(P, t, vm', j')
      case Fails(vm') => FailReaches(P, t, vm', j')
      case Done(r) => r == Some(j')
  {
    hide Program, Rewritten, StackGood, InLoop, Place, StackCost, Exec, Succ, Acc, FromStack, Harmless;
    j' := j;
    if vm.p == |P| {
      j' := EndComplete(P, t, vm, j);
    } else {
      StartFacts(P, t, vm);
      AccStep(P, t, vm.p, vm.d, j);
      var op := vm.code[vm.p];
      if Consumes(op) {
        Eating(P, t, vm);
      } else if op == ON_FAILURE_JUMP {
        Branching(P, t, vm);
        FromPush(P, t, vm.stack, Point(Target(P, vm.p), vm.d), j);
      } else if IsBack(op) {
        Looping(P, t, vm);
        LoopSucc(P, t, vm.p, vm.d);
        if FailReaches(P, t, vm, j) {
          j' := LoopComplete(P, t, vm, j);
        }
        assert Reaches(P, t, LoopBack(P, vm), j');
      } else {
        Passing(P, t, vm);
        FromPush(P, t, vm.stack, Dummy, j);
        assert vm.stack + [] == vm.stack;
      }
    }
  }

  // The matcher returns nothing shorter than any match there is.
  lemma {:induction false} RunLongest(P: Code, t: Text, vm: Vm, j: nat)
    requires Inv(P, t, vm) && Harmless(P) && Reaches(P, t, vm, j)
    ensures Run(P, t, vm).Some? && j <= Run(P, t, vm).value
    decreases Measure(P, t, vm), 1
  {
    hide Program, InvFail, Inv, Reaches, FailReaches, Exec, Harmless;
    ExecKeeps(P, t, vm);
    var j' := ExecComplete(P, t, vm, j);
    match Exec(t, vm)
    case Next(vm') => RunLongest(P, t, vm', j');
    case Fails(vm') => RunFailLongest(P, t, vm', j');
    case Done(r) =>
  }

  lemma {:induction false} RunFailLongest(P: Code, t: Text, vm: Vm, j: nat)
    requires InvFail(P, t, vm) && Harmless(P) && FailReaches(P, t, vm, j)
    ensures RunFail(P, t, vm).Some? && j <= RunFail(P, t, vm).value
    decreases StackCost(P, t, vm.stack), 0
  {
    hide Program, InvFail, Inv, Reaches, FailReaches, Backtrack, Harmless;
    BacktrackKeeps(P, t, vm);
    BacktrackSound(P, t, vm, j);
    match Backtrack(vm)
    case Next(vm') => RunLongest(P, t, vm', j);
    case Fails(vm') => RunFailLongest(P, t, vm', j);
    case Done(r) => FailDone(P, t, vm, j);
  }

  lemma FailDone(P: Code, t: Text, vm: Vm, j: nat)
    requires InvFail(P, t, vm) && FailReaches(P, t, vm, j) && Backtrack(vm).Done?
    ensures Backtrack(vm).result == Some(j)
  {
    BacktrackSound(P, t, vm, j);
  }

  // ----- rewriting is unobservable -----

  // Two runs that differ only in how much of the code is rewritten return the same.
  lemma {:induction false} RunIgnoresRewriting(P: Code, t: Text, vm: Vm, Q: Code)
    requires Inv(P, t, vm) && Rewritten(P, Q)
    ensures Inv(P, t, vm.(code := Q)) && Run(P, t, vm.(code := Q)) == Run(P, t, vm)
    decreases Measure(P, t, vm), 1
  {
    hide Program, Rewritten, StackGood, InLoop, Place, StackCost, Cost, Exec, Succ;
    var vm2 := vm.(code := Q);
    ExecKeeps(P, t, vm);
    ExecKeeps(P, t, vm2);
    var Q' := SameExec(P, t, vm, Q);
    match Exec(t, vm)
    case Next(vm') => RunIgnoresRewriting(P, t, vm', Q');
    case Fails(vm') => RunFailIgnoresRewriting(P, t, vm', Q');
    case Done(r) =>
  }

  lemma {:induction false} RunFailIgnoresRewriting(P: Code, t: Text, vm: Vm, Q: Code)
    requires InvFail(P, t, vm) && Rewritten(P, Q)
    ensures InvFail(P, t, vm.(code := Q)) && RunFail(P, t, vm.(code := Q)) == RunFail(P, t, vm)
    decreases StackCost(P, t, vm.stack), 0
  {
    hide Program, Rewritten, StackGood, InLoop, Place, StackCost, Cost, Backtrack;
    var vm2 := vm.(code := Q);
    BacktrackKeeps(P, t, vm);
    BacktrackKeeps(P, t, vm2);
    BacktrackIs(P, t, vm);
    BacktrackIs(P, t, vm2);
    match Backtrack(vm)
    case Next(vm') => RunIgnoresRewriting(P, t, vm', Q);
    case Fails(vm') => RunFailIgnoresRewriting(P, t, vm', Q);
    case Done(r) =>
  }

  lemma SameExec(P: Code, t: Text, vm: Vm, Q: Code) returns (Q': Code)
    requires Inv(P, t, vm) && Rewritten(P, Q)
    ensures Rewritten(P, Q')
    ensures Exec(t, vm.(code := Q)) ==
      match Exec(t, vm)
      case Next(vm') => Next(vm'.(code := Q'))
      case Fails(vm') => Fails(vm'.(code := Q'))
      case Done(r) => Done(r)
  {
    hide Program, Rewritten, StackGood, InLoop, Place, StackCost, Exec, Succ;
    var vm2 := vm.(code := Q);
    Q' := Q;
    RewrittenLength(P, vm.code);
    RewrittenLength(P, Q);
    if vm.p == |P| {
      ExecAtEnd(t, vm);
      ExecAtEnd(t, vm2);
    } else {
      StartFacts(P, t, vm);
      StartFacts(P, t, vm2);
      var op := vm.code[vm.p];
      if Consumes(op) {
        Eating(P, t, vm);
        Eating(P, t, vm2);
      } else if op == ON_FAILURE_JUMP {
        Branching(P, t, vm);
        Branching(P, t, vm2);
      } else if IsBack(op) {
        Looping(P, t, vm);
        Looping(P, t, vm2);
        Q' := Q[vm.p := Choice(P, vm.p)];
        LoopedCode(P, Q, vm.p);
      } else {
        Passing(P, t, vm);
        Passing(P, t, vm2);
      }
    }
  }

  // ----- the matcher -----

  function Begin(P: Code, pos: nat): Vm {
    Vm(P, 0, pos, [], None)
  }

  lemma BeginInv(P: Code, t: Text, pos: nat)
    requires Program(P) && pos <= |t|
    ensures Inv(P, t, Begin(P, pos))
  {
    ScannedIsPlace(P, 0);
    hide Place;
    forall m: nat | IsBody(P, 0, m)
      ensures false
    {
      LoopIs(P, m);
    }
  }

  // re_match_2_internal: the end of the match found from pos, if any.
  ghost function MatchEnd(P: Code, t: Text, pos: nat): (r: Option<nat>)
    requires Program(P) && pos <= |t|
  {
    BeginInv(P, t, pos);
    Run(P, t, Begin(P, pos))
  }

  lemma BeginReaches(P: Code, t: Text, pos: nat, j: nat)
    requires pos <= |t|
    ensures Reaches(P, t, Begin(P, pos), j) <==> Acc(P, t, 0, pos, j)
  {
  }

  // e ends the longest prefix of the text from pos that is in A.
  ghost predicate LongestPrefix(A: Lang, t: Text, pos: nat, e: nat) {
    && pos <= e <= |t| && t[pos..e] in A
    && forall j: nat | pos <= j <= |t| && t[pos..j] in A :: j <= e
  }

  ghost predicate NoPrefix(A: Lang, t: Text, pos: nat) {
    forall j: nat | pos <= j <= |t| :: t[pos..j] !in A
  }

  // The main theorem about matching: whatever the pattern, in the fragment, and whatever the
  // text, the matcher finds the longest match, if there is one, and nothing else.
  lemma MatchesLongest(r: Regex, t: Text, pos: nat)
    requires WellFormed(r) && SimpleRegex(r) && |RegexCode(r, 0)| <= MAX_OFFSET && pos <= |t|
    ensures Program(RegexCode(r, 0))
    ensures Harmless(RegexCode(r, 0)) ==>
      match MatchEnd(RegexCode(r, 0), t, pos)
      case Some(e) => LongestPrefix(RegexLang(r), t, pos, e)
      case None => NoPrefix(RegexLang(r), t, pos)
  {
    CodeIsWellFormed(r);
    var P := RegexCode(r, 0);
    if Harmless(P) {
      BeginInv(P, t, pos);
      var e := MatchEnd(P, t, pos);
      if e.Some? {
        RunSound(P, t, Begin(P, pos));
        BeginReaches(P, t, pos, e.value);
        CodeMeansLanguage(r, t, pos, e.value);
      }
      forall j: nat | pos <= j <= |t| && t[pos..j] in RegexLang(r)
        ensures e.Some? && j <= e.value
      {
        CodeMeansLanguage(r, t, pos, j);
        BeginReaches(P, t, pos, j);
        RunLongest(P, t, Begin(P, pos), j);
      }
    }
  }
}
