/**
 Matching with any compiled tree, repeated groups and all: whatever the registers say at each
 stop_memory, a match that is reported is a word of the tree.
 */
module RegexSound {
  import opened Wrappers
  import opened RegexBytes
  import opened RegexSyntax
  import opened RegexGen
  import opened RegexNfa
  import opened RegexMeaning
  import opened RegexBlocks
  import opened RegexVm
  import opened RegexVmProof
  import opened RegexVmRun
  import opened RegexMatch
  import opened RegexFastmap

  // ----- runs -----

  // The machine is at a stop_memory where the code allows the forced exit. Whether it is taken
  // depends on register flags, which are not modelled.
  predicate Forceable(vm: Vm) {
    vm.p + 3 <= |vm.code| && vm.code[vm.p] == STOP_MEMORY && ForcedExit(vm.code, vm.p) && ExitAt(vm) >= 0
  }

  // Where the loop is left: the place its on_failure_jump leads to.
  function ExitAt(vm: Vm): int
    requires vm.p + 3 <= |vm.code| && vm.code[vm.p] == STOP_MEMORY && ForcedExit(vm.code, vm.p)
  {
    var head := Target(vm.code, vm.p + 3);
    if head + 3 <= |vm.code| then Target(vm.code, head) else -1
  }

  // A failure point there is pushed, and popped at once.
  function Forced(vm: Vm): Outcome
    requires Forceable(vm)
  {
    Fails(vm.(stack := vm.stack + [Point(ExitAt(vm), vm.d)]))
  }

  // From o the machine ends with the result after at most n steps, for some choice of forced
  // exits.
  ghost predicate Ends(o: Outcome, t: Text, result: Option<nat>, n: nat)
    decreases n
  {
    match o
    case Done(r) => r == result
    case Next(vm) => n > 0 && (Ends(Exec(t, vm), t, result, n - 1) || (Forceable(vm) && Ends(Forced(vm), t, result, n - 1)))
    case Fails(vm) => n > 0 && Ends(Backtrack(vm), t, result, n - 1)
  }

  // ----- the rewritten code -----

  // One backward jump becomes another.
  lemma RewriteKeeps(P: Code, Q: Code, m: nat, op: byte)
    requires SameShape(P, Q) && Scan(P, 0, |P|) && Start(P, m) && IsBack(P[m]) && IsBack(op)
    ensures SameShape(P, Q[m := op])
  {
    hide InsLen, Edges, Target;
    forall a: nat | Start(P, a)
      ensures ShapeAt(P, Q[m := op], a)
    {
      if a == m {
        BackShape(P, Q, m, op);
      } else {
        OtherShape(P, Q, m, op, a);
      }
    }
  }

  lemma BackShape(P: Code, Q: Code, m: nat, op: byte)
    requires m < |P| == |Q| && ShapeAt(P, Q, m) && InsLen(P, m) > 0 && IsBack(P[m]) && IsBack(op)
    ensures ShapeAt(P, Q[m := op], m)
  {
    var R := Q[m := op];
    assert Target(R, m) == Target(Q, m);
  }

  lemma OtherShape(P: Code, Q: Code, m: nat, op: byte, a: nat)
    requires SameShape(P, Q) && Scan(P, 0, |P|) && Start(P, m) && Start(P, a) && a != m
    ensures ShapeAt(P, Q[m := op], a)
  {
    hide Edges, Target;
    var n := InsLen(P, a);
    if a < m {
      ScanNext(P, 0, a, m);
    }
    assert ShapeAt(P, Q, a);
    Elsewhere(Q, m, op, a, n);
  }

  lemma Elsewhere(Q: Code, m: nat, op: byte, a: nat, n: nat)
    requires m < |Q| && a < |Q| && InsLen(Q, a) == n > 0 && !(a <= m < a + n)
    ensures
      var R := Q[m := op];
      && R[a] == Q[a] && InsLen(R, a) == n && R[a..a + n] == Q[a..a + n] && Edges(R, a) == Edges(Q, a)
      && (n == 3 ==> Target(R, a) == Target(Q, a))
  {
    var R := Q[m := op];
    assert R[a..a + n] == Q[a..a + n];
    assert InsLen(R, a) == n;
    SameEdges(Q, R, a);
  }

  // Both codes lead to the same places.
  lemma SuccShape(P: Code, Q: Code, t: Text, a: nat, i: nat)
    requires SameShape(P, Q) && Start(P, a) && i <= |t|
    ensures Succ(Q, t, a, i) == Succ(P, t, a, i)
  {
    assert ShapeAt(P, Q, a);
    hide Edges;
    if !IsBack(P[a]) {
      SliceOfSlice(P, Q, a, InsLen(P, a));
    }
  }

  // ----- what every state keeps -----

  // What is accepted from here is accepted from the beginning.
  ghost predicate Comes(P: Code, t: Text, pos: nat, a: nat, i: nat)
    requires pos <= |t| && i <= |t|
  {
    forall j: nat :: Acc(P, t, a, i, j) ==> Acc(P, t, 0, pos, j)
  }

  ghost predicate CameTo(P: Code, t: Text, pos: nat, a: int, i: nat) {
    pos <= |t| && Place(P, a) && i <= |t| && Comes(P, t, pos, a, i)
  }

  ghost predicate PointsCome(P: Code, t: Text, pos: nat, stack: seq<FailurePoint>) {
    forall f | f in stack && f.Point? :: CameTo(P, t, pos, f.pat, f.str)
  }

  ghost predicate Found(P: Code, t: Text, pos: nat, result: Option<nat>) {
    result.Some? ==> pos <= |t| && result.value <= |t| && Acc(P, t, 0, pos, result.value)
  }

  ghost predicate SoundFails(P: Code, t: Text, pos: nat, vm: Vm) {
    SameShape(P, vm.code) && PointsCome(P, t, pos, vm.stack) && pos <= |t| && Found(P, t, pos, vm.best)
  }

  ghost predicate SoundOutcome(P: Code, t: Text, pos: nat, o: Outcome) {
    match o
    case Next(vm) => SoundFails(P, t, pos, vm) && CameTo(P, t, pos, vm.p, vm.d)
    case Fails(vm) => SoundFails(P, t, pos, vm)
    case Done(r) => Found(P, t, pos, r)
  }

  // The next place of the same word.
  lemma ComesNext(P: Code, t: Text, pos: nat, a: nat, i: nat, x: nat, k: nat)
    requires WellFormedCode(P) && CameTo(P, t, pos, a, i) && Start(P, a) && (x, k) in Succ(P, t, a, i)
    ensures CameTo(P, t, pos, x, k)
  {
    hide Succ, WellFormedCode;
    SuccEdge(P, t, a, i, (x, k));
    EdgeTo(P, a, x);
    forall j: nat | Acc(P, t, x, k, j)
      ensures Acc(P, t, 0, pos, j)
    {
      var n: nat :| AccN(P, t, x, k, j, n);
      var S := Succ(P, t, a, i);
      var s :| 0 <= s < |S| && S[s] == (x, k);
      assert AccN(P, t, S[s].0, S[s].1, j, n);
      assert AccN(P, t, a, i, j, n + 1);
    }
  }

  lemma PointsMore(P: Code, t: Text, pos: nat, stack: seq<FailurePoint>, f: FailurePoint)
    requires PointsCome(P, t, pos, stack) && (f.Point? ==> CameTo(P, t, pos, f.pat, f.str))
    ensures PointsCome(P, t, pos, stack + [f])
  {
  }

  lemma PointsLess(P: Code, t: Text, pos: nat, stack: seq<FailurePoint>)
    requires PointsCome(P, t, pos, stack) && stack != []
    ensures PointsCome(P, t, pos, stack[..|stack| - 1])
  {
  }

  lemma EndFound(P: Code, t: Text, pos: nat, i: nat)
    requires CameTo(P, t, pos, |P|, i)
    ensures Found(P, t, pos, Some(i))
  {
    AccNEnd(P, t, i, i, 0);
    assert Acc(P, t, |P|, i, i);
  }

  // ----- every step -----

  lemma EndSound(P: Code, t: Text, pos: nat, vm: Vm)
    requires SoundOutcome(P, t, pos, Next(vm)) && vm.p == |P|
    ensures SoundOutcome(P, t, pos, Exec(t, vm))
  {
    EndFound(P, t, pos, vm.d);
    hide SameShape, PointsCome, Acc;
  }

  lemma ExecSound(P: Code, t: Text, pos: nat, vm: Vm)
    requires WellFormedCode(P) && SoundOutcome(P, t, pos, Next(vm))
    ensures SoundOutcome(P, t, pos, Exec(t, vm))
  {
    hide WellFormedCode, SameShape, PointsCome, Comes, Acc;
    ShapeLength(P, vm.code);
    if vm.p == |P| {
      EndSound(P, t, pos, vm);
    } else {
      ShapeOp(P, vm.code, vm.p);
      SuccShape(P, vm.code, t, vm.p, vm.d);
      forall s | s in Succ(vm.code, t, vm.p, vm.d)
        ensures CameTo(P, t, pos, s.0, s.1)
      {
        ComesNext(P, t, pos, vm.p, vm.d, s.0, s.1);
      }
      var op := vm.code[vm.p];
      if op == ON_FAILURE_JUMP {
        BranchSound(P, t, pos, vm);
      } else if IsBack(op) {
        BackSound(P, t, pos, vm);
      } else {
        StepSound(P, t, pos, vm);
      }
    }
  }

  lemma ShapeLength(P: Code, Q: Code)
    requires SameShape(P, Q)
    ensures |Q| == |P|
  {
  }

  // Where the machine may come from here.
  ghost predicate Leads(P: Code, t: Text, pos: nat, vm: Vm) {
    && vm.p < |vm.code| && vm.d <= |t| && InsLen(vm.code, vm.p) > 0
    && forall s | s in Succ(vm.code, t, vm.p, vm.d) :: CameTo(P, t, pos, s.0, s.1)
  }

  lemma BranchSound(P: Code, t: Text, pos: nat, vm: Vm)
    requires SoundFails(P, t, pos, vm) && Leads(P, t, pos, vm) && vm.p < |P| && vm.code[vm.p] == ON_FAILURE_JUMP
    ensures SoundOutcome(P, t, pos, Exec(t, vm))
  {
    hide SameShape, PointsCome, CameTo, Acc;
    ShapeLength(P, vm.code);
    if Target(vm.code, vm.p) >= 0 {
      var S := Succ(vm.code, t, vm.p, vm.d);
      assert S == [(vm.p + 3, vm.d), (Target(vm.code, vm.p), vm.d)];
      assert S[0] in S && S[1] in S;
      PointsMore(P, t, pos, vm.stack, Point(Target(vm.code, vm.p), vm.d));
    }
  }

  lemma BackSound(P: Code, t: Text, pos: nat, vm: Vm)
    requires SoundFails(P, t, pos, vm) && Leads(P, t, pos, vm) && vm.p < |P| && IsBack(vm.code[vm.p])
    requires WellFormedCode(P) && Start(P, vm.p) && IsBack(P[vm.p])
    ensures SoundOutcome(P, t, pos, Exec(t, vm))
  {
    hide SameShape, PointsCome, CameTo, Acc, WellFormedCode, Pops, Start;
    ShapeLength(P, vm.code);
    WholeScan(P);
    var Q := vm.code[vm.p := Choice(vm.code, vm.p)];
    RewriteKeeps(P, vm.code, vm.p, Choice(vm.code, vm.p));
    assert Target(Q, vm.p) == Target(vm.code, vm.p);
    if Target(Q, vm.p) >= 0 {
      var S := Succ(vm.code, t, vm.p, vm.d);
      assert S == [(Target(Q, vm.p), vm.d)];
      assert S[0] in S;
    }
    if vm.stack != [] {
      PointsLess(P, t, pos, vm.stack);
    }
  }

  lemma StepSound(P: Code, t: Text, pos: nat, vm: Vm)
    requires SoundFails(P, t, pos, vm) && Leads(P, t, pos, vm) && vm.p < |P|
    requires var op := vm.code[vm.p]; op != ON_FAILURE_JUMP && !IsBack(op)
    ensures SoundOutcome(P, t, pos, Exec(t, vm))
  {
    hide SameShape, PointsCome, CameTo, Acc;
    PointsMore(P, t, pos, vm.stack, Dummy);
    ShapeLength(P, vm.code);
    var S := Succ(vm.code, t, vm.p, vm.d);
    assert |S| > 0 ==> S[0] in S;
  }

  // One instruction of the rewritten code that reads nothing.
  lemma OnceMore(P: Code, Q: Code, t: Text, pos: nat, a: int, i: nat, x: int)
    requires WellFormedCode(P) && SameShape(P, Q) && CameTo(P, t, pos, a, i) && 0 <= a && a + 3 <= |P| && x >= 0
    requires IsJump(Q[a]) || Q[a] == STOP_MEMORY
    requires if Q[a] == STOP_MEMORY then x == a + 3 else x == Target(Q, a)
    ensures CameTo(P, t, pos, x, i)
  {
    hide WellFormedCode, SameShape, Comes, Acc, Target;
    ShapeLength(P, Q);
    ShapeOp(P, Q, a);
    SuccShape(P, Q, t, a, i);
    assert InsLen(Q, a) == 3;
    var S := Succ(Q, t, a, i);
    assert (x as nat, i) == S[|S| - 1];
    ComesNext(P, t, pos, a, i, x, i);
  }

  // The forced exit leaves the loop at its head.
  lemma ForcedSound(P: Code, t: Text, pos: nat, vm: Vm)
    requires WellFormedCode(P) && SoundOutcome(P, t, pos, Next(vm)) && Forceable(vm)
    ensures SoundOutcome(P, t, pos, Forced(vm))
  {
    hide WellFormedCode, SameShape, PointsCome, CameTo, Acc, Found, Target, Place;
    ShapeLength(P, vm.code);
    var h := Target(vm.code, vm.p + 3);
    OnceMore(P, vm.code, t, pos, vm.p, vm.d, vm.p + 3);
    OnceMore(P, vm.code, t, pos, vm.p + 3, vm.d, h);
    OnceMore(P, vm.code, t, pos, h, vm.d, ExitAt(vm));
    PointsMore(P, t, pos, vm.stack, Point(ExitAt(vm), vm.d));
  }

  lemma BacktrackSound(P: Code, t: Text, pos: nat, vm: Vm)
    requires SoundFails(P, t, pos, vm)
    ensures SoundOutcome(P, t, pos, Backtrack(vm))
  {
    hide SameShape, CameTo, Found;
    if vm.stack != [] {
      var top := vm.stack[|vm.stack| - 1];
      assert top in vm.stack;
      PointsLess(P, t, pos, vm.stack);
    }
  }

  // ----- whole runs -----

  lemma {:induction false} EndsSound(P: Code, t: Text, pos: nat, o: Outcome, result: Option<nat>, n: nat)
    requires WellFormedCode(P) && SoundOutcome(P, t, pos, o) && Ends(o, t, result, n)
    ensures Found(P, t, pos, result)
    decreases n
  {
    hide WellFormedCode, SoundOutcome, Found, Exec, Backtrack, Forced, Forceable;
    match o {
      case Done(r) =>
        DoneSound(P, t, pos, r);
      case Next(vm) =>
        if Ends(Exec(t, vm), t, result, n - 1) {
          ExecSound(P, t, pos, vm);
          EndsSound(P, t, pos, Exec(t, vm), result, n - 1);
        } else {
          ForcedSound(P, t, pos, vm);
          EndsSound(P, t, pos, Forced(vm), result, n - 1);
        }
      case Fails(vm) =>
        FailsSound(P, t, pos, vm);
        BacktrackSound(P, t, pos, vm);
        EndsSound(P, t, pos, Backtrack(vm), result, n - 1);
    }
  }

  lemma DoneSound(P: Code, t: Text, pos: nat, r: Option<nat>)
    requires SoundOutcome(P, t, pos, Done(r))
    ensures Found(P, t, pos, r)
  {
  }

  lemma FailsSound(P: Code, t: Text, pos: nat, vm: Vm)
    requires SoundOutcome(P, t, pos, Fails(vm))
    ensures SoundFails(P, t, pos, vm)
  {
  }

  function Begin(P: Code, pos: nat): Vm {
    Vm(P, 0, pos, [], None)
  }

  // Code without any repetition restriction: what is reported is accepted by the code.
  lemma CodeSound(P: Code, t: Text, pos: nat, e: nat, n: nat)
    requires WellFormedCode(P) && pos <= |t| && Ends(Next(Begin(P, pos)), t, Some(e), n)
    ensures e <= |t| && Acc(P, t, 0, pos, e)
  {
    ShapeSelf(P);
    WholeScan(P);
    ScanPlace(P, 0);
    hide WellFormedCode, SameShape, Acc, Ends, Place;
    EndsSound(P, t, pos, Next(Begin(P, pos)), Some(e), n);
  }

  lemma ShapeSelf(P: Code)
    ensures SameShape(P, P)
  {
    hide InsLen, Edges;
    forall a: nat | Start(P, a)
      ensures ShapeAt(P, P, a)
    {
      SelfAt(P, a);
    }
  }

  lemma SelfAt(P: Code, a: nat)
    requires Start(P, a)
    ensures ShapeAt(P, P, a)
  {
  }

  // Every tree, with groups repeated at will: a reported match is a word of the tree.
  lemma TreeSound(r: Regex, t: Text, pos: nat, e: nat, n: nat)
    requires WellFormed(r) && |RegexCode(r, 0)| <= MAX_OFFSET && pos <= |t|
    requires Ends(Next(Begin(RegexCode(r, 0), pos)), t, Some(e), n)
    ensures pos <= e <= |t| && t[pos..e] in RegexLang(r)
  {
    hide RegexCode, RegexLang, Acc, Ends, WellFormedCode;
    CodeIsWellFormed(r);
    CodeSound(RegexCode(r, 0), t, pos, e, n);
    CodeMeansLanguage(r, t, pos, e);
  }

  // The runs of programs whose loops are simple are such runs, without any forced exit.
  lemma {:induction false} RunEnds(P: Code, t: Text, vm: Vm) returns (n: nat)
    requires Inv(P, t, vm)
    ensures Ends(Next(vm), t, Run(P, t, vm), n)
    decreases Measure(P, t, vm), 1
  {
    hide Inv, InvFail, Measure, StackCost, Exec, Program;
    ExecKeeps(P, t, vm);
    match Exec(t, vm) {
      case Next(vm') =>
        var k := RunEnds(P, t, vm');
        n := k + 1;
      case Fails(vm') =>
        var k := RunFailEnds(P, t, vm');
        n := k + 1;
      case Done(r) =>
        n := 1;
    }
  }

  lemma {:induction false} RunFailEnds(P: Code, t: Text, vm: Vm) returns (n: nat)
    requires InvFail(P, t, vm)
    ensures Ends(Fails(vm), t, RunFail(P, t, vm), n)
    decreases StackCost(P, t, vm.stack), 0
  {
    hide Inv, Measure, Exec, Backtrack, Program;
    BacktrackKeeps(P, t, vm);
    match Backtrack(vm) {
      case Next(vm') =>
        var k := RunEnds(P, t, vm');
        n := k + 1;
      case Fails(vm') =>
        var k := RunFailEnds(P, t, vm');
        n := k + 1;
      case Done(r) =>
        n := 1;
    }
  }
}
