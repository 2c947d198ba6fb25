/**
 What a wrong decision costs. When the matcher discards failure points although the loop and
 what follows it can match the same character, and no jump leads over the loop, there is a text
 that is in the language and on which the matcher finds no match: a shortest word, with that
 character where the loop is left. All its other ways through the code would be longer, and the
 way out of the loop is the failure point discarded.
 */
module RegexLost {
  import opened Wrappers
  import opened RegexBytes
  import opened RegexSyntax
  import opened RegexGen
  import opened RegexNfa
  import opened RegexBlocks
  import opened RegexVm
  import opened RegexVmProof
  import opened RegexVmRun
  import opened RegexMatch

  // The code accepts the whole text.
  ghost predicate Word(P: Code, t: Text) {
    Acc(P, t, 0, 0, |t|)
  }

  // Only the head of the loop that m ends leads past it.
  ghost predicate NoWayRound(P: Code, m: nat)
    requires Program(P) && IsEnd(P, m)
  {
    forall a: nat, x | Start(P, a) && a <= m && x in Edges(P, a) && x > m :: a == Head(P, m) && x == m + 3
  }

  // ----- accepting on other texts -----

  lemma AccVia(P: Code, t: Text, a: nat, i: nat, s: (nat, nat), j: nat)
    requires a < |P| && i <= |t| && s in Succ(P, t, a, i) && Acc(P, t, s.0, s.1, j)
    ensures Acc(P, t, a, i, j)
  {
    AccStep(P, t, a, i, j);
  }

  lemma AccNext(P: Code, t: Text, a: nat, i: nat, j: nat, n: nat) returns (s: (nat, nat))
    requires i <= |t| && AccN(P, t, a, i, j, n) && a != |P|
    ensures a < |P| && n > 0 && s in Succ(P, t, a, i) && i <= s.1 <= |t| && AccN(P, t, s.0, s.1, j, n - 1)
  {
    var S := Succ(P, t, a, i);
    var k :| 0 <= k < |S| && AccN(P, t, S[k].0, S[k].1, j, n - 1);
    s := S[k];
  }

  // Where an instruction leads depends on what lies ahead only.
  lemma SuccShift(P: Code, t: Text, a: nat, i: nat, t': Text, i': nat, s: (nat, nat))
    requires a < |P| && i <= |t| && i' <= |t'| && t'[i'..] == t[i..] && s in Succ(P, t, a, i)
    ensures s.1 >= i && (s.0, s.1 - i + i') in Succ(P, t', a, i')
  {
    var len := InsLen(P, a);
    assert |t'| - i' == |t| - i;
    if P[a] == EXACTN {
      var n := P[a + 1];
      assert t'[i'..][..n] == t'[i'..i' + n] && t[i..][..n] == t[i..i + n];
    } else if IsEater(P[a]) && i < |t| {
      assert t'[i'] == t'[i'..][0] == t[i..][0] == t[i];
    }
  }

  lemma {:induction false} AccNShift(P: Code, t: Text, a: nat, i: nat, j: nat, n: nat, t': Text, i': nat)
    requires i <= |t| && i' <= |t'| && t'[i'..] == t[i..] && AccN(P, t, a, i, j, n)
    ensures j >= i && AccN(P, t', a, i', j - i + i', n)
    decreases n
  {
    hide Succ;
    if a == |P| {
      AccNEnd(P, t, i, j, n);
      AccNEnd(P, t', i', i', n);
    } else {
      var s := AccNext(P, t, a, i, j, n);
      SuccShift(P, t, a, i, t', i', s);
      var k := s.1 - i + i';
      var S := Succ(P, t', a, i');
      assert t'[k..] == t'[i'..][s.1 - i..] == t[i..][s.1 - i..] == t[s.1..];
      AccNShift(P, t, s.0, s.1, j, n - 1, t', k);
      var x :| 0 <= x < |S| && S[x] == (s.0, k);
    }
  }

  lemma AccShift(P: Code, t: Text, a: nat, i: nat, j: nat, t': Text, i': nat)
    requires i <= |t| && i' <= |t'| && t'[i'..] == t[i..] && Acc(P, t, a, i, j)
    ensures j >= i && Acc(P, t', a, i', j - i + i')
  {
    var n: nat :| AccN(P, t, a, i, j, n);
    AccNShift(P, t, a, i, j, n, t', i');
  }

  // And on what has been read only: (a, i) is reached from the start by reading t up to i.
  ghost predicate Joined(P: Code, t: Text, a: nat, i: nat) {
    i <= |t| && forall u: Text, j: nat | i <= |u| && u[..i] == t[..i] && Acc(P, u, a, i, j) :: Acc(P, u, 0, 0, j)
  }

  lemma SuccAgree(P: Code, t: Text, a: nat, i: nat, u: Text, s: (nat, nat))
    requires a < |P| && i <= |t| && s in Succ(P, t, a, i) && s.1 <= |u| && u[..s.1] == t[..s.1]
    ensures i <= |u| && s in Succ(P, u, a, i)
  {
    if P[a] == EXACTN {
      assert u[i..s.1] == u[..s.1][i..] == t[..s.1][i..] == t[i..s.1];
    } else if IsEater(P[a]) {
      assert u[i] == u[..s.1][i] == t[..s.1][i] == t[i];
    }
  }

  lemma JoinedStep(P: Code, t: Text, a: nat, i: nat, s: (nat, nat))
    requires a < |P| && Joined(P, t, a, i) && s in Succ(P, t, a, i)
    ensures Joined(P, t, s.0, s.1)
  {
    hide Succ, Acc;
    assert i <= s.1 <= |t|;
    forall u: Text, j: nat | s.1 <= |u| && u[..s.1] == t[..s.1] && Acc(P, u, s.0, s.1, j)
      ensures Acc(P, u, 0, 0, j)
    {
      SuccAgree(P, t, a, i, u, s);
      AccVia(P, u, a, i, s, j);
      assert u[..i] == u[..s.1][..i] == t[..s.1][..i] == t[..i];
    }
  }

  // Reading to the end from before the loop leaves it by its head.
  lemma {:induction false} Crossing(P: Code, t: Text, m: nat, a: nat, i: nat, j: nat, n: nat) returns (k: nat)
    requires Program(P) && IsEnd(P, m) && NoWayRound(P, m)
    requires Place(P, a) && a <= m && Joined(P, t, a, i) && AccN(P, t, a, i, j, n)
    ensures i <= k <= |t| && Joined(P, t, m + 3, k) && Acc(P, t, m + 3, k, j)
    decreases n
  {
    hide Program, Succ, Joined, Place, Edges;
    PlaceEnd(P, a);
    LoopIs(P, m);
    JoinedBound(P, t, a, i);
    assert a != |P|;
    PlaceStart(P, a);
    var s := AccNext(P, t, a, i, j, n);
    SuccEdge(P, t, a, i, s);
    EdgePlace(P, a, s.0);
    JoinedStep(P, t, a, i, s);
    if s.0 > m {
      k := s.1;
    } else {
      k := Crossing(P, t, m, s.0, s.1, j, n - 1);
    }
  }

  lemma JoinedBound(P: Code, t: Text, a: nat, i: nat)
    requires Joined(P, t, a, i)
    ensures i <= |t|
  {
  }

  // ----- a text that is lost -----

  // A shortest word that leaves the loop at i, where the loop could go on.
  ghost predicate Trap(P: Code, m: nat, t: Text, i: nat) {
    && Program(P) && IsEnd(P, m) && Pops(P, m) && NoWayRound(P, m)
    && i < |t| && Acc(P, t, m + 3, i, |t|) && Joined(P, t, m + 3, i)
    && JustEaten(P, t, m, i + 1)
    && forall u: Text | |u| < |t| :: !Word(P, u)
  }

  lemma {:induction false} ShortestWord(P: Code, w: Text) returns (t: Text)
    requires Word(P, w)
    ensures Word(P, t) && forall u: Text | |u| < |t| :: !Word(P, u)
    decreases |w|
  {
    if u: Text :| |u| < |w| && Word(P, u) {
      t := ShortestWord(P, u);
    } else {
      t := w;
    }
  }

  lemma EaterSucc(P: Code, t: Text, a: nat, i: nat)
    requires a < |P| && InsLen(P, a) > 0 && IsEater(P[a]) && i < |t|
    ensures Succ(P, t, a, i) == if Eats(P, a, t[i]) then [(a + InsLen(P, a), i + 1)] else []
  {
    hide Eats, InsLen;
  }

  // Where an exactn goes on, its first character stands.
  lemma StartsWithLiteral(P: Code, t: Text, a: nat, i: nat)
    requires a < |P| && InsLen(P, a) > 0 && P[a] == EXACTN && i < |t| && Succ(P, t, a, i) != []
    ensures t[i] == P[a + 2]
  {
    var n := P[a + 1];
    assert t[i] == t[i..i + n][0] && P[a + 2] == P[a + 2..a + 2 + n][0];
  }

  // What follows the loop takes another character that it can begin with.
  lemma OtherStart(P: Code, t: Text, a: nat, i: nat, c: byte)
    requires a < |P| && InsLen(P, a) > 0 && Consumes(P[a]) && Begins(P, a, c)
    requires i < |t| && Acc(P, t, a, i, |t|)
    ensures Acc(P, t[i := c], a, i, |t|)
  {
    hide Acc, Eats;
    AccStep(P, t, a, i, |t|);
    AccStep(P, t[i := c], a, i, |t|);
    var u := t[i := c];
    if P[a] == EXACTN {
      StartsWithLiteral(P, t, a, i);
      assert t[i] == c;
      assert u == t;
    } else {
      EaterSucc(P, t, a, i);
      EaterSucc(P, u, a, i);
      assert u[i + 1..] == t[i + 1..];
      AccShift(P, t, a + InsLen(P, a), i + 1, |t|, u, i + 1);
    }
  }

  lemma CommonStart(P: Code, m: nat) returns (c: byte)
    requires Program(P) && IsEnd(P, m) && (LostByCountByte(P, m) || LostByFullMap(P, m))
    ensures
      var b, p2 := Head(P, m) + 3, SkipMemory(P, m + 3);
      && Pops(P, m) && 0 <= b < |P| && InsLen(P, b) > 0 && Eats(P, b, c)
      && p2 < |P| && InsLen(P, p2) > 0 && Consumes(P[p2]) && Begins(P, p2, c)
  {
    LoopIs(P, m);
    AfterLoop(P, m);
    DecisionExact(P, m);
    var p2 := SkipMemory(P, m + 3);
    c :| Eats(P, Head(P, m) + 3, c) && Begins(P, p2, c);
  }

  lemma SkipLoop(P: Code, t: Text, m: nat, i: nat, j: nat)
    requires Program(P) && IsEnd(P, m) && i <= |t|
    ensures Acc(P, t, m + 3, i, j) <==> Acc(P, t, SkipMemory(P, m + 3), i, j)
  {
    hide Program, Acc, Place, IsEnd;
    LoopIs(P, m);
    NextPlace(P, Head(P, m), m + 3);
    SkipAcc(P, t, m + 3, i, j);
  }

  lemma JoinedSame(P: Code, t: Text, a: nat, i: nat, u: Text)
    requires Joined(P, t, a, i) && i <= |u| && u[..i] == t[..i]
    ensures Joined(P, u, a, i)
  {
  }

  lemma FromStart(P: Code, t: Text)
    ensures Joined(P, t, 0, 0)
  {
  }

  lemma TrapExists(P: Code, m: nat, w: Text) returns (t: Text, i: nat)
    requires Program(P) && IsEnd(P, m) && NoWayRound(P, m) && Word(P, w)
    requires LostByCountByte(P, m) || LostByFullMap(P, m)
    ensures Trap(P, m, t, i) && Word(P, t)
  {
    hide *;
    var c := CommonStart(P, m);
    var s := ShortestWord(P, w);
    i := LeavesLoop(P, m, s);
    t := OtherWord(P, m, s, i, c);
    TrapIs(P, m, t, i, c);
  }

  lemma LeavesLoop(P: Code, m: nat, s: Text) returns (i: nat)
    requires Program(P) && IsEnd(P, m) && NoWayRound(P, m) && Word(P, s)
    ensures i <= |s| && Joined(P, s, m + 3, i) && Acc(P, s, m + 3, i, |s|)
  {
    var n: nat :| AccN(P, s, 0, 0, |s|, n);
    hide *;
    FromStart(P, s);
    PlaceZero(P);
    i := Crossing(P, s, m, 0, 0, |s|, n);
  }

  lemma PlaceZero(P: Code)
    requires Program(P)
    ensures Place(P, 0)
  {
    ScannedIsPlace(P, 0);
  }

  lemma OtherWord(P: Code, m: nat, s: Text, i: nat, c: byte) returns (t: Text)
    requires Program(P) && IsEnd(P, m) && i <= |s| && Joined(P, s, m + 3, i) && Acc(P, s, m + 3, i, |s|)
    requires
      var p2 := SkipMemory(P, m + 3);
      p2 < |P| && InsLen(P, p2) > 0 && Consumes(P[p2]) && Begins(P, p2, c)
    ensures i < |s| == |t| && t[i] == c && Joined(P, t, m + 3, i) && Acc(P, t, m + 3, i, |t|)
  {
    hide *;
    var p2 := SkipMemory(P, m + 3);
    SkipLoop(P, s, m, i, |s|);
    AccBegins(P, s, p2, i, |s|);
    OtherStart(P, s, p2, i, c);
    t := s[i := c];
    SkipLoop(P, t, m, i, |t|);
    assert t[..i] == s[..i];
    JoinedSame(P, s, m + 3, i, t);
  }

  lemma TrapIs(P: Code, m: nat, t: Text, i: nat, c: byte)
    requires Program(P) && IsEnd(P, m) && Pops(P, m) && NoWayRound(P, m)
    requires i < |t| && Acc(P, t, m + 3, i, |t|) && Joined(P, t, m + 3, i)
    requires var b := Head(P, m) + 3; 0 <= b < |P| && InsLen(P, b) > 0 && Eats(P, b, c) && t[i] == c
    requires forall u: Text | |u| < |t| :: !Word(P, u)
    ensures Trap(P, m, t, i) && Word(P, t)
  {
    hide Acc, Joined, Program, Pops, NoWayRound, Eats, InsLen;
    JoinedWord(P, t, m + 3, i);
  }

  lemma JoinedWord(P: Code, t: Text, a: nat, i: nat)
    requires Joined(P, t, a, i) && Acc(P, t, a, i, |t|)
    ensures Word(P, t)
  {
  }

  // ----- the machine in a trap -----

  // What is read up to d, and what is read from i on at the same place.
  lemma Spliced(P: Code, t: Text, a: nat, d: nat, i: nat)
    requires Joined(P, t, a, d) && i <= |t| && Acc(P, t, a, i, |t|)
    ensures d <= |t| && Word(P, t[..d] + t[i..])
  {
    hide Acc, Joined;
    JoinedBound(P, t, a, d);
    var u := t[..d] + t[i..];
    assert u[d..] == t[i..] && u[..d] == t[..d];
    AccShift(P, t, a, i, |t|, u, d);
    JoinedSame(P, t, a, d, u);
    JoinedWord(P, u, a, d);
  }

  // Leaving the loop anywhere else comes to no good end.
  lemma NoOtherExit(P: Code, m: nat, t: Text, i: nat, d: nat)
    requires Trap(P, m, t, i) && Joined(P, t, m + 3, d) && d != i
    ensures !Acc(P, t, m + 3, d, |t|)
  {
    hide Acc, Joined, Program, Pops, NoWayRound, JustEaten, Word;
    JoinedBound(P, t, m + 3, d);
    if d < i {
      Spliced(P, t, m + 3, d, i);
    } else if Acc(P, t, m + 3, d, |t|) {
      Spliced(P, t, m + 3, i, d);
    }
  }

  // Reached from the start, and past the loop there is no way to the end of the text.
  ghost predicate Astray(P: Code, m: nat, t: Text, a: nat, d: nat) {
    Joined(P, t, a, d) && (a > m ==> !Acc(P, t, a, d, |t|))
  }

  ghost predicate AllAstray(P: Code, m: nat, t: Text, stack: seq<FailurePoint>) {
    forall f | f in stack && f.Point? :: Astray(P, m, t, f.pat, f.str)
  }

  // In the round of the loop whose failure point would be the way out.
  predicate InTrap(P: Code, m: nat, i: nat, vm: Vm) {
    (vm.p == Head(P, m) + 3 && vm.d == i) || (vm.p == m && vm.d == i + 1)
  }

  // The failure points that count: in that round the last one is going to be discarded.
  function Kept(P: Code, m: nat, i: nat, vm: Vm): seq<FailurePoint> {
    if InTrap(P, m, i, vm) && vm.stack != [] then vm.stack[..|vm.stack| - 1] else vm.stack
  }

  ghost predicate Lost(P: Code, m: nat, t: Text, i: nat, vm: Vm) {
    && Inv(P, t, vm) && vm.best.None?
    && Astray(P, m, t, vm.p, vm.d) && AllAstray(P, m, t, Kept(P, m, i, vm))
  }

  ghost predicate LostFail(P: Code, m: nat, t: Text, vm: Vm) {
    InvFail(P, t, vm) && vm.best.None? && AllAstray(P, m, t, vm.stack)
  }

  lemma NeverAtEnd(P: Code, m: nat, t: Text, i: nat, d: nat)
    requires Trap(P, m, t, i)
    ensures !Astray(P, m, t, |P|, d)
  {
    if Joined(P, t, |P|, d) {
      LoopIs(P, m);
      var u := t[..d];
      AccEnd(P, u, d, d);
      assert Word(P, u);
      AccEnd(P, t, d, |t|);
    }
  }

  lemma AstrayStep(P: Code, m: nat, t: Text, i: nat, a: nat, d: nat, s: (nat, nat))
    requires Trap(P, m, t, i) && Start(P, a) && Astray(P, m, t, a, d) && s in Succ(P, t, a, d)
    requires !(a == Head(P, m) && s.0 == m + 3 && d == i)
    ensures Astray(P, m, t, s.0, s.1)
  {
    hide Program, Succ, Joined, Acc, Pops, JustEaten;
    JoinedBound(P, t, a, d);
    JoinedStep(P, t, a, d, s);
    if s.0 > m {
      if a <= m {
        SuccEdge(P, t, a, d, s);
        LoopIs(P, m);
        NoOtherExit(P, m, t, i, s.1);
      } else if Acc(P, t, s.0, s.1, |t|) {
        AccVia(P, t, a, d, s, |t|);
      }
    }
  }

  // ----- one step in a trap -----

  ghost predicate StaysLost(P: Code, m: nat, t: Text, i: nat, o: Outcome) {
    match o
    case Next(vm') => Lost(P, m, t, i, vm')
    case Fails(vm') => LostFail(P, m, t, vm')
    case Done(_) => false
  }

  lemma LostStart(P: Code, m: nat, t: Text, i: nat, vm: Vm)
    requires Trap(P, m, t, i) && Lost(P, m, t, i, vm)
    ensures vm.p != |P| && vm.p < |P| == |vm.code| && Start(P, vm.p)
    ensures Succ(vm.code, t, vm.p, vm.d) == Succ(P, t, vm.p, vm.d) && vm.d <= |t|
    ensures if IsEnd(P, vm.p) then IsBack(vm.code[vm.p]) && IsBack(P[vm.p]) else vm.code[vm.p] == P[vm.p]
  {
    hide Trap, Astray, AllAstray, Kept;
    NeverAtEnd(P, m, t, i, vm.d);
    StartFacts(P, t, vm);
  }

  lemma AstrayAll(P: Code, m: nat, t: Text, stack: seq<FailurePoint>, more: seq<FailurePoint>)
    requires AllAstray(P, m, t, stack) && forall f | f in more && f.Point? :: f in stack
    ensures AllAstray(P, m, t, more)
  {
  }

  lemma AstrayPush(P: Code, m: nat, t: Text, stack: seq<FailurePoint>, f: FailurePoint)
    requires AllAstray(P, m, t, stack) && (f.Point? ==> Astray(P, m, t, f.pat, f.str))
    ensures AllAstray(P, m, t, stack + [f])
  {
    hide Astray;
  }

  // Only the head or a dummy jump leads to the body of the loop, only the body to its end.
  lemma EatNext(P: Code, m: nat, t: Text, a: nat, d: nat, s: (nat, nat))
    requires Program(P) && IsEnd(P, m) && Start(P, a) && Consumes(P[a]) && d <= |t| && s in Succ(P, t, a, d)
    ensures s.0 != Head(P, m) + 3 && (s.0 == m ==> a == Head(P, m) + 3)
    ensures a == Head(P, m) + 3 ==> s == (m, d + 1)
  {
    LoopIs(P, m);
    SuccEdge(P, t, a, d, s);
    hide Program;
    if s.0 == m {
      EdgeToEnd(P, a, m);
    }
    if s.0 == Head(P, m) + 3 {
      EdgeToBody(P, a, s.0, m);
    }
    if a == Head(P, m) + 3 {
      EatsOne(P, t, a, d, s);
    }
  }

  // Another place, with the same failure points that count.
  lemma LostMoved(P: Code, m: nat, t: Text, i: nat, vm: Vm, p: nat, d: nat)
    requires Lost(P, m, t, i, vm) && Inv(P, t, vm.(p := p, d := d)) && Astray(P, m, t, p, d)
    requires InTrap(P, m, i, vm.(p := p, d := d)) <==> InTrap(P, m, i, vm)
    ensures Lost(P, m, t, i, vm.(p := p, d := d))
  {
    hide Inv, Astray, AllAstray, InTrap;
  }

  lemma LostEating(P: Code, m: nat, t: Text, i: nat, vm: Vm)
    requires Trap(P, m, t, i) && Lost(P, m, t, i, vm)
    requires vm.p < |vm.code| && vm.p != |P| && Consumes(vm.code[vm.p])
    ensures StaysLost(P, m, t, i, Exec(t, vm))
  {
    hide Trap, Inv, InvFail, Astray, AllAstray, Exec, Succ, InsLen, Head;
    LostStart(P, m, t, i, vm);
    TrapParts(P, m, t, i);
    Eating(P, t, vm);
    TrapEats(P, m, t, i);
    var S := Succ(P, t, vm.p, vm.d);
    if S != [] {
      var s := S[0];
      EatNext(P, m, t, vm.p, vm.d, s);
      NotEnd(P, m, vm.p);
      AstrayStep(P, m, t, i, vm.p, vm.d, s);
      LostMoved(P, m, t, i, vm, s.0, s.1);
    } else {
      NotEnd(P, m, vm.p);
      InvIsFail(P, t, vm);
    }
  }

  lemma TrapParts(P: Code, m: nat, t: Text, i: nat)
    requires Trap(P, m, t, i)
    ensures Program(P) && IsEnd(P, m) && Head(P, m) >= 0 && Head(P, m) + 3 < m && P[Head(P, m)] == ON_FAILURE_JUMP
  {
    LoopIs(P, m);
  }

  lemma NotEnd(P: Code, m: nat, a: nat)
    requires IsEnd(P, m) && a < |P| && Consumes(P[a])
    ensures a != m
  {
  }

  lemma InvIsFail(P: Code, t: Text, vm: Vm)
    requires Inv(P, t, vm)
    ensures InvFail(P, t, vm)
  {
  }

  lemma OneSucc(P: Code, t: Text, a: nat, i: nat)
    requires a < |P| && InsLen(P, a) > 0 && Consumes(P[a]) && (P[a] == EXACTN ==> P[a + 1] == 1)
    requires i < |t| && Eats(P, a, t[i])
    ensures Succ(P, t, a, i) == [(a + InsLen(P, a), i + 1)]
  {
    hide MapHas;
    if P[a] == EXACTN {
      assert t[i..i + 1] == [t[i]] == P[a + 2..a + 3];
    }
  }

  lemma TrapEats(P: Code, m: nat, t: Text, i: nat)
    requires Trap(P, m, t, i)
    ensures Head(P, m) >= 0 && Succ(P, t, (Head(P, m) + 3) as nat, i) != []
  {
    LoopIs(P, m);
    hide Program, Pops, NoWayRound, Acc, Joined, Eats, Succ, InsLen, IsEnd;
    OneSucc(P, t, Head(P, m) + 3, i);
  }

  lemma LostBranching(P: Code, m: nat, t: Text, i: nat, vm: Vm)
    requires Trap(P, m, t, i) && Lost(P, m, t, i, vm)
    requires vm.p < |vm.code| && vm.p != |P| && vm.code[vm.p] == ON_FAILURE_JUMP
    ensures StaysLost(P, m, t, i, Exec(t, vm))
  {
    hide Trap, Inv, InvFail, Astray, AllAstray, Exec, Succ, InsLen, Head, Edges, IsEnd, Program;
    LostStart(P, m, t, i, vm);
    TrapParts(P, m, t, i);
    Branching(P, t, vm);
    HeadApart(P, m, t, vm.p, vm.d);
    var x: nat := Target(P, vm.p);
    var f := Point(x, vm.d);
    AstrayStep(P, m, t, i, vm.p, vm.d, (vm.p + 3, vm.d));
    if vm.p + 3 == Head(P, m) + 3 && vm.d == i {
      assert (vm.stack + [f])[..|vm.stack|] == vm.stack;
    } else {
      AstrayStep(P, m, t, i, vm.p, vm.d, (x, vm.d));
      AstrayPush(P, m, t, vm.stack, f);
    }
  }

  // A failure jump is neither the body of the loop nor its end, and does not lead there unless
  // it is the head.
  lemma HeadApart(P: Code, m: nat, t: Text, a: nat, d: nat)
    requires Program(P) && IsEnd(P, m) && Start(P, a) && P[a] == ON_FAILURE_JUMP && d <= |t|
    ensures a + 3 <= |P| && a != m && a != Head(P, m) + 3 && a + 3 != m && Head(P, m) != m
  {
    LoopIs(P, m);
    NotToEnd(P, m, a);
  }

  lemma NotToEnd(P: Code, m: nat, a: nat)
    requires Program(P) && IsEnd(P, m) && Start(P, a) && !Consumes(P[a])
    ensures m !in Edges(P, a)
  {
    if m in Edges(P, a) {
      EdgeToEnd(P, a, m);
    }
  }

  lemma LostLooping(P: Code, m: nat, t: Text, i: nat, vm: Vm)
    requires Trap(P, m, t, i) && Lost(P, m, t, i, vm)
    requires vm.p < |vm.code| && vm.p != |P| && IsBack(vm.code[vm.p])
    ensures StaysLost(P, m, t, i, Exec(t, vm))
  {
    hide IsBack, Acc, Joined, JustEaten, Inv, Astray, AllAstray, AtEnd, IsEater, Target, Succ, Consumes, Place,
      InvFail;
    LostStart(P, m, t, i, vm);
    LoopIs(P, m);
    Looping(P, t, vm);
    LoopIs(P, vm.p);
    hide Inv, InvFail, Astray, AllAstray, Exec, Program, Pops, Acc, Joined, NoWayRound, IsEnd, JustEaten;
    var vm' := LoopBack(P, vm);
    BackSucc(P, t, vm.p, vm.d);
    AstrayStep(P, m, t, i, vm.p, vm.d, (vm'.p, vm.d));
    AstrayAll(P, m, t, Kept(P, m, i, vm), vm'.stack);
  }

  lemma BackSucc(P: Code, t: Text, k: nat, d: nat)
    requires Program(P) && IsEnd(P, k) && d <= |t|
    ensures Head(P, k) >= 0 && k < |P| && Succ(P, t, k, d) == [(Head(P, k) as nat, d)]
  {
    LoopIs(P, k);
  }

  lemma LostPassing(P: Code, m: nat, t: Text, i: nat, vm: Vm)
    requires Trap(P, m, t, i) && Lost(P, m, t, i, vm)
    requires vm.p < |vm.code| && vm.p != |P|
    requires var op := vm.code[vm.p]; !Consumes(op) && op != ON_FAILURE_JUMP && !IsBack(op)
    ensures StaysLost(P, m, t, i, Exec(t, vm))
  {
    hide Exec, Succ, Program, Acc, JustEaten, Word, LostFail, AtEnd, InsLen, Eats, Target, Choice, PopAndJump, Jump,
      IsJump, Head, Place, Measure, InvFail, StackCost;
    LostStart(P, m, t, i, vm);
    LoopIs(P, m);
    Passing(P, t, vm);
    hide Inv, InvFail, Astray, AllAstray, Exec, Succ, Program, Pops, Acc, Joined, NoWayRound, IsEnd, JustEaten;
    var s := Succ(P, t, vm.p, vm.d)[0];
    AstrayStep(P, m, t, i, vm.p, vm.d, s);
    AstrayAll(P, m, t, vm.stack, Kept(P, m, i, Exec(t, vm).vm));
  }

  lemma LostExec(P: Code, m: nat, t: Text, i: nat, vm: Vm)
    requires Trap(P, m, t, i) && Lost(P, m, t, i, vm)
    ensures StaysLost(P, m, t, i, Exec(t, vm))
  {
    LostStart(P, m, t, i, vm);
    hide Trap, Lost, Exec;
    var op := vm.code[vm.p];
    if Consumes(op) {
      LostEating(P, m, t, i, vm);
    } else if op == ON_FAILURE_JUMP {
      LostBranching(P, m, t, i, vm);
    } else if IsBack(op) {
      LostLooping(P, m, t, i, vm);
    } else {
      LostPassing(P, m, t, i, vm);
    }
  }

  lemma LostBacktrack(P: Code, m: nat, t: Text, i: nat, vm: Vm)
    requires Trap(P, m, t, i) && LostFail(P, m, t, vm)
    ensures
      match Backtrack(vm)
      case Next(vm') => Lost(P, m, t, i, vm')
      case Fails(vm') => LostFail(P, m, t, vm')
      case Done(r) => r == None
  {
    BacktrackKeeps(P, t, vm);
    BacktrackIs(P, t, vm);
    if vm.stack != [] {
      var top := vm.stack[|vm.stack| - 1];
      var rest := vm.stack[..|vm.stack| - 1];
      PopCost(P, t, vm.stack);
      hide Astray, Inv, Program, Rewritten, Acc, Joined, Backtrack, Pops, NoWayRound, JustEaten, StackGood, StackCost;
      AstrayAll(P, m, t, vm.stack, rest);
      if top.Point? {
        assert top in vm.stack;
        OutsideTrap(P, m, t, top);
      }
    }
  }

  lemma OutsideTrap(P: Code, m: nat, t: Text, f: FailurePoint)
    requires Program(P) && IsEnd(P, m) && f.Point? && PointGood(P, t, f)
    ensures f.pat != m && f.pat != Head(P, m) + 3
  {
    assert f.pat == Head(P, m) + 3 ==> IsBody(P, f.pat, m);
  }

  // ----- the run in a trap -----

  lemma {:induction false} RunLost(P: Code, m: nat, t: Text, i: nat, vm: Vm)
    requires Trap(P, m, t, i) && Lost(P, m, t, i, vm)
    ensures Inv(P, t, vm) && Run(P, t, vm) == None
    decreases Measure(P, t, vm), 1
  {
    LostInv(P, m, t, i, vm);
    hide Trap, Lost, LostFail, Inv, InvFail, Exec;
    ExecKeeps(P, t, vm);
    LostExec(P, m, t, i, vm);
    match Exec(t, vm)
    case Next(vm') => RunLost(P, m, t, i, vm');
    case Fails(vm') => RunFailLost(P, m, t, i, vm');
    case Done(r) =>
  }

  lemma LostInv(P: Code, m: nat, t: Text, i: nat, vm: Vm)
    requires Lost(P, m, t, i, vm)
    ensures Inv(P, t, vm)
  {
  }

  lemma {:induction false} RunFailLost(P: Code, m: nat, t: Text, i: nat, vm: Vm)
    requires Trap(P, m, t, i) && LostFail(P, m, t, vm)
    ensures InvFail(P, t, vm) && RunFail(P, t, vm) == None
    decreases StackCost(P, t, vm.stack), 0
  {
    hide Trap, Lost, Inv, Backtrack;
    BacktrackKeeps(P, t, vm);
    LostBacktrack(P, m, t, i, vm);
    hide InvFail, AllAstray;
    match Backtrack(vm)
    case Next(vm') => RunLost(P, m, t, i, vm');
    case Fails(vm') => RunFailLost(P, m, t, i, vm');
    case Done(r) =>
  }

  // In a trap the matcher finds nothing.
  lemma TrapFindsNothing(P: Code, m: nat, t: Text, i: nat)
    requires Trap(P, m, t, i)
    ensures MatchEnd(P, t, 0) == None
  {
    LoopIs(P, m);
    BeginInv(P, t, 0);
    FromStart(P, t);
    hide Program, Inv, Joined, Acc, Pops, NoWayRound, JustEaten, IsEnd;
    RunLost(P, m, t, i, Begin(P, 0));
  }
}
