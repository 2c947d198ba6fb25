/**
 What every instruction of the matcher keeps, and the run of the matcher as a function.
 */
module RegexVmRun {
  import opened Wrappers
  import opened RegexBytes
  import opened RegexSyntax
  import opened RegexGen
  import opened RegexNfa
  import opened RegexBlocks
  import opened RegexVm
  import opened RegexVmProof

  // What holds whenever a failure point is about to be popped.
  ghost predicate InvFail(P: Code, t: Text, vm: Vm) {
    && Program(P) && Rewritten(P, vm.code) && StackGood(P, t, vm.stack)
    && (vm.best.Some? ==> vm.best.value <= |t|)
  }

  // The last failure point is a dummy, or f.
  predicate TopIs(stack: seq<FailurePoint>, f: FailurePoint) {
    stack != [] && (stack[|stack| - 1].Dummy? || stack[|stack| - 1] == f)
  }

  // The body of the loop that m ends matches the character before d.
  predicate JustEaten(P: Code, t: Text, m: nat, d: nat) {
    var b := Head(P, m) + 3;
    0 <= b < |P| && InsLen(P, b) > 0 && 1 <= d <= |t| && Eats(P, b, t[d - 1])
  }

  // In the body of a loop, and at its end, the last failure point is the way out of the loop
  // taken before the body, or a dummy.
  ghost predicate InLoop(P: Code, t: Text, p: nat, d: nat, stack: seq<FailurePoint>) {
    && (IsEnd(P, p) ==> JustEaten(P, t, p, d) && TopIs(stack, Point(p + 3, d - 1)))
    && (forall m: nat | IsBody(P, p, m) :: TopIs(stack, Point(m + 3, d)))
  }

  ghost predicate Inv(P: Code, t: Text, vm: Vm) {
    && InvFail(P, t, vm) && Place(P, vm.p) && vm.d <= |t|
    && InLoop(P, t, vm.p, vm.d, vm.stack)
  }

  ghost function Measure(P: Code, t: Text, vm: Vm): nat
    requires Inv(P, t, vm)
  {
    Cost(P, t, vm.p, vm.d) + StackCost(P, t, vm.stack)
  }

  // ----- the measure, one step -----

  lemma CostStep(P: Code, t: Text, a: nat, i: nat)
    requires Program(P) && Start(P, a) && i <= |t|
    ensures
      var S := Succ(P, t, a, i);
      && (|S| > 0 ==> Place(P, S[0].0) && Cost(P, t, S[0].0, S[0].1) + 2 < Cost(P, t, a, i))
      && (|S| > 1 ==>
            (Place(P, S[1].0)
             && Cost(P, t, S[0].0, S[0].1) + 1 + Cost(P, t, S[1].0, S[1].1) < Cost(P, t, a, i)))
  {
    hide Program, Succ, Weight;
    var S := Succ(P, t, a, i);
    if |S| > 0 {
      SuccLower(P, t, a, i, S[0]);
    }
    if |S| > 1 {
      SuccLower(P, t, a, i, S[1]);
    }
  }

  lemma PushCost(P: Code, t: Text, stack: seq<FailurePoint>, f: FailurePoint)
    requires Program(P) && StackGood(P, t, stack) && PointGood(P, t, f)
    ensures StackGood(P, t, stack + [f])
    ensures StackCost(P, t, stack + [f])
         == StackCost(P, t, stack) + if f.Dummy? then 1 else 1 + Cost(P, t, f.pat, f.str)
  {
    hide Program, Cost, PointGood;
    assert (stack + [f])[..|stack|] == stack;
  }

  lemma PopCost(P: Code, t: Text, stack: seq<FailurePoint>)
    requires Program(P) && StackGood(P, t, stack) && stack != []
    ensures
      var f := stack[|stack| - 1];
      var rest := stack[..|stack| - 1];
      && StackGood(P, t, rest) && PointGood(P, t, f)
      && StackCost(P, t, stack) == StackCost(P, t, rest) + if f.Dummy? then 1 else 1 + Cost(P, t, f.pat, f.str)
  {
    hide Program, Cost, PointGood;
  }

  // ----- leaving one place for another -----

  // Nothing but a failure jump, a dummy jump or a one-character match leads into a loop.
  lemma OutOfLoop(P: Code, t: Text, a: nat, x: nat, d: nat, stack: seq<FailurePoint>)
    requires Program(P) && Start(P, a) && x in Edges(P, a)
    requires !Consumes(P[a]) && P[a] != ON_FAILURE_JUMP
    requires P[a] == DUMMY_FAILURE_JUMP ==> stack != [] && stack[|stack| - 1].Dummy?
    ensures Place(P, x) && InLoop(P, t, x, d, stack)
  {
    hide Program, Edges, Place, JustEaten, IsEnd;
    NextPlace(P, a, x);
    forall m: nat | IsBody(P, x, m)
      ensures TopIs(stack, Point(m + 3, d))
    {
      EdgeToBody(P, a, x, m);
    }
  }

  lemma OntoHead(P: Code, t: Text, a: nat, d: nat, stack: seq<FailurePoint>)
    requires Program(P) && Start(P, a) && P[a] == ON_FAILURE_JUMP && Target(P, a) >= 0
    requires d <= |t|
    ensures
      var f := Point(Target(P, a), d);
      Place(P, a + 3) && InLoop(P, t, a + 3, d, stack + [f]) && PointGood(P, t, f)
  {
    hide Program, Place, JustEaten;
    var x := Target(P, a);
    var f := Point(x, d);
    assert Edges(P, a) == {a + 3, x};
    NextPlace(P, a, a + 3);
    NextPlace(P, a, x);
    var y := a + 3;
    forall m: nat | IsBody(P, y, m)
      ensures TopIs(stack + [f], Point(m + 3, d))
    {
      LoopIs(P, m);
    }
    forall m: nat | IsBody(P, x, m)
      ensures false
    {
      EdgeToBody(P, a, x, m);
      LoopIs(P, m);
    }
  }

  // A one-character match from the body of a loop to its end, or outside any loop.
  lemma OverBody(P: Code, t: Text, a: nat, i: nat, s: (nat, nat), stack: seq<FailurePoint>)
    requires Program(P) && Start(P, a) && Consumes(P[a]) && i <= |t| && s in Succ(P, t, a, i)
    requires InLoop(P, t, a, i, stack)
    ensures Place(P, s.0) && s.1 <= |t| && InLoop(P, t, s.0, s.1, stack)
  {
    hide Program, Place;
    SuccEdge(P, t, a, i, s);
    EdgePlace(P, a, s.0);
    if IsEnd(P, s.0) {
      EdgeToEnd(P, a, s.0);
      LoopIs(P, s.0);
      EatsOne(P, t, a, i, s);
    }
    var x := s.0;
    forall m: nat | IsBody(P, x, m)
      ensures false
    {
      EdgeToBody(P, a, x, m);
    }
  }

  lemma EatsOne(P: Code, t: Text, a: nat, i: nat, s: (nat, nat))
    requires a < |P| && i <= |t| && s in Succ(P, t, a, i) && Consumes(P[a])
    requires P[a] == EXACTN ==> a + 1 < |P| && P[a + 1] == 1
    ensures i < |t| && s.1 == i + 1 && InsLen(P, a) > 0 && Eats(P, a, t[i])
  {
    if P[a] == EXACTN {
      assert t[i..i + 1][0] == t[i] && P[a + 2..a + 3][0] == P[a + 2];
    }
  }

  // ----- one step -----

  // A step to another place that leaves the code and the best match alone.
  ghost predicate StepsTo(P: Code, t: Text, vm: Vm, o: Outcome)
    requires Inv(P, t, vm)
  {
    o.Next? && Inv(P, t, o.vm) && Measure(P, t, o.vm) < Measure(P, t, vm) && o.vm.best == vm.best
  }

  lemma StartFacts(P: Code, t: Text, vm: Vm)
    requires Inv(P, t, vm) && vm.p != |P|
    ensures vm.p < |P| == |vm.code| && Start(P, vm.p)
    ensures InsLen(vm.code, vm.p) == InsLen(P, vm.p) > 0
    ensures Succ(vm.code, t, vm.p, vm.d) == Succ(P, t, vm.p, vm.d)
    ensures if IsEnd(P, vm.p) then IsBack(vm.code[vm.p]) && IsBack(P[vm.p]) else vm.code[vm.p] == P[vm.p]
    ensures InsLen(P, vm.p) == 3 ==> Target(vm.code, vm.p) == Target(P, vm.p)
    ensures vm.code[vm.p] != P[vm.p] ==> vm.code[vm.p] == Choice(P, vm.p)
  {
    hide Program, Succ, InsLen;
    PlaceStart(P, vm.p);
    SameOp(P, vm.code, vm.p);
    SameSucc(P, vm.code, t, vm.p, vm.d);
  }

  lemma Eating(P: Code, t: Text, vm: Vm)
    requires Inv(P, t, vm) && vm.p < |vm.code| && Consumes(vm.code[vm.p]) && vm.p != |P|
    ensures
      var S := Succ(P, t, vm.p, vm.d);
      |S| <= 1 &&
      if S == [] then Exec(t, vm) == Fails(vm)
      else Exec(t, vm) == Next(vm.(p := S[0].0, d := S[0].1)) && StepsTo(P, t, vm, Exec(t, vm))
  {
    StartFacts(P, t, vm);
    EatingExec(t, vm);
    hide Program, Succ, InsLen, Rewritten, StackGood, Exec, InLoop, Place;
    var S := Succ(P, t, vm.p, vm.d);
    if S != [] {
      CostStep(P, t, vm.p, vm.d);
      OverBody(P, t, vm.p, vm.d, S[0], vm.stack);
    }
  }

  lemma EatingExec(t: Text, vm: Vm)
    requires vm.p < |vm.code| && vm.d <= |t| && InsLen(vm.code, vm.p) > 0 && Consumes(vm.code[vm.p])
    ensures
      var S := Succ(vm.code, t, vm.p, vm.d);
      |S| <= 1 && Exec(t, vm) == if S == [] then Fails(vm) else Next(vm.(p := S[0].0, d := S[0].1))
  {
  }

  lemma Branching(P: Code, t: Text, vm: Vm)
    requires Inv(P, t, vm) && vm.p < |vm.code| && vm.code[vm.p] == ON_FAILURE_JUMP && vm.p != |P|
    ensures Target(P, vm.p) >= 0
    ensures Exec(t, vm) == Next(vm.(p := vm.p + 3, stack := vm.stack + [Point(Target(P, vm.p), vm.d)]))
    ensures Succ(P, t, vm.p, vm.d) == [(vm.p + 3, vm.d), (Target(P, vm.p) as nat, vm.d)]
    ensures StepsTo(P, t, vm, Exec(t, vm))
  {
    hide Succ, AtEnd, Choice, Pops, PopAndJump, Program, Cost, StackCost;
    StartFacts(P, t, vm);
    BranchTarget(P, t, vm);
    CostStep(P, t, vm.p, vm.d);
    OntoHead(P, t, vm.p, vm.d, vm.stack);
    PushCost(P, t, vm.stack, Point(Target(P, vm.p), vm.d));
    hide Program, Succ, InsLen, Rewritten, StackGood, InLoop, Place, StackCost, Cost;
  }

  lemma BranchTarget(P: Code, t: Text, vm: Vm)
    requires Inv(P, t, vm) && vm.p < |vm.code| && vm.code[vm.p] == ON_FAILURE_JUMP && vm.p != |P|
    ensures InsLen(P, vm.p) == 3 && Target(P, vm.p) >= 0
    ensures Succ(P, t, vm.p, vm.d) == [(vm.p + 3, vm.d), (Target(P, vm.p) as nat, vm.d)]
  {
    StartFacts(P, t, vm);
    assert vm.code[vm.p] == P[vm.p];
    EdgePlace(P, vm.p, Target(P, vm.p));
  }

  // Instructions with one way on that consume nothing and end no loop: they leave the stack
  // alone, or push a dummy.
  lemma Passing(P: Code, t: Text, vm: Vm)
    requires Inv(P, t, vm) && vm.p < |vm.code| && vm.p != |P|
    requires var op := vm.code[vm.p]; !Consumes(op) && op != ON_FAILURE_JUMP && !IsBack(op)
    ensures
      var S := Succ(P, t, vm.p, vm.d);
      var op := vm.code[vm.p];
      var more := if op == DUMMY_FAILURE_JUMP || op == PUSH_DUMMY_FAILURE then [Dummy] else [];
      && |S| == 1 && S[0].1 == vm.d
      && Exec(t, vm) == Next(vm.(p := S[0].0, stack := vm.stack + more))
      && StepsTo(P, t, vm, Exec(t, vm))
  {
    StartFacts(P, t, vm);
    var op := vm.code[vm.p];
    var more := if op == DUMMY_FAILURE_JUMP || op == PUSH_DUMMY_FAILURE then [Dummy] else [];
    PassingExec(P, t, vm);
    hide Program, InsLen, Rewritten, Place, Succ, Exec;
    var S := Succ(P, t, vm.p, vm.d);
    CostStep(P, t, vm.p, vm.d);
    SuccEdge(P, t, vm.p, vm.d, S[0]);
    if more != [] {
      PushCost(P, t, vm.stack, Dummy);
    } else {
      assert vm.stack + more == vm.stack;
    }
    OutOfLoop(P, t, vm.p, S[0].0, vm.d, vm.stack + more);
  }

  lemma PassingExec(P: Code, t: Text, vm: Vm)
    requires Inv(P, t, vm) && vm.p < |vm.code| && vm.p != |P|
    requires var op := vm.code[vm.p]; !Consumes(op) && op != ON_FAILURE_JUMP && !IsBack(op)
    ensures
      var S := Succ(P, t, vm.p, vm.d);
      var op := vm.code[vm.p];
      var more := if op == DUMMY_FAILURE_JUMP || op == PUSH_DUMMY_FAILURE then [Dummy] else [];
      && |S| == 1 && S[0].1 == vm.d
      && Exec(t, vm) == Next(vm.(p := S[0].0, stack := vm.stack + more))
  {
    StartFacts(P, t, vm);
    var op := vm.code[vm.p];
    assert P[vm.p] == op;
    if IsJump(op) {
      EdgePlace(P, vm.p, Target(P, vm.p));
    }
    assert vm.stack + [] == vm.stack;
  }

  // The end of a loop: the jump is decided, if it was not, and taken.
  function LoopBack(P: Code, vm: Vm): Vm
    requires vm.p < |vm.code| && Head(P, vm.p) >= 0
  {
    vm.(code := vm.code[vm.p := Choice(P, vm.p)],
        p := Head(P, vm.p),
        stack := if Pops(P, vm.p) && vm.stack != [] then vm.stack[..|vm.stack| - 1] else vm.stack)
  }

  lemma Looping(P: Code, t: Text, vm: Vm)
    requires Inv(P, t, vm) && vm.p < |vm.code| && vm.p != |P| && IsBack(vm.code[vm.p])
    ensures IsEnd(P, vm.p) && Head(P, vm.p) >= 0
    ensures Exec(t, vm) == Next(LoopBack(P, vm)) && StepsTo(P, t, vm, Exec(t, vm))
  {
    LoopingExec(P, t, vm);
    var vm' := LoopBack(P, vm);
    LoopedCode(P, vm.code, vm.p);
    LoopIs(P, vm.p);
    HeadPlace(P, t, vm.p, vm.d, vm'.stack);
    if Pops(P, vm.p) {
      PopCost(P, t, vm.stack);
    }
    LoopCost(P, t, vm.p, vm.d);
    hide Program, Rewritten, StackCost, Cost, Exec, Pops, InLoop, StackGood;
  }

  lemma LoopingExec(P: Code, t: Text, vm: Vm)
    requires Inv(P, t, vm) && vm.p < |vm.code| && vm.p != |P| && IsBack(vm.code[vm.p])
    ensures IsEnd(P, vm.p) && Head(P, vm.p) >= 0 && vm.stack != []
    ensures Exec(t, vm) == Next(LoopBack(P, vm))
  {
    StartFacts(P, t, vm);
    var m := vm.p;
    assert SimpleAt(P, m);
    LoopIs(P, m);
    PopsSame(P, vm.code, m);
    hide Program, Pops, Succ, StackGood;
    if vm.code[m] != MAYBE_POP_JUMP {
      assert vm.code[m] == Choice(P, m);
      assert vm.code[m := Choice(P, m)] == vm.code;
    } else {
      var Q := vm.code[m := Choice(P, m)];
      assert Target(Q, m) == Target(vm.code, m);
    }
  }

  lemma LoopedCode(P: Code, Q: Code, m: nat)
    requires Program(P) && Rewritten(P, Q) && IsEnd(P, m)
    ensures Rewritten(P, Q[m := Choice(P, m)])
  {
    hide Program, Choice;
  }

  lemma HeadPlace(P: Code, t: Text, m: nat, d: nat, stack: seq<FailurePoint>)
    requires Program(P) && IsEnd(P, m)
    ensures Head(P, m) >= 0 && Place(P, Head(P, m)) && InLoop(P, t, Head(P, m), d, stack)
  {
    hide Program, Edges;
    LoopIs(P, m);
    OutOfLoop(P, t, m, Head(P, m), d, stack);
  }

  lemma LoopCost(P: Code, t: Text, m: nat, d: nat)
    requires Program(P) && IsEnd(P, m) && d <= |t|
    ensures Place(P, m) && Place(P, Head(P, m)) && Cost(P, t, Head(P, m), d) < Cost(P, t, m, d)
  {
    LoopIs(P, m);
    assert Succ(P, t, m, d) == [(Head(P, m), d)];
    CostStep(P, t, m, d);
  }

  // ----- any step -----

  ghost predicate Kept(P: Code, t: Text, vm: Vm, o: Outcome)
    requires Inv(P, t, vm)
  {
    match o
    case Next(vm') => Inv(P, t, vm') && Measure(P, t, vm') < Measure(P, t, vm)
    case Fails(vm') => InvFail(P, t, vm') && StackCost(P, t, vm'.stack) < Measure(P, t, vm)
    case Done(r) => r.Some? && r.value <= |t| && vm.p == |P|
  }

  lemma ExecKeeps(P: Code, t: Text, vm: Vm)
    requires Inv(P, t, vm)
    ensures Kept(P, t, vm, Exec(t, vm))
  {
    hide Program, Rewritten, StackGood, InLoop, Place, StackCost, Exec, Succ;
    if vm.p == |P| {
      EndKeeps(P, t, vm);
    } else {
      StartFacts(P, t, vm);
      var op := vm.code[vm.p];
      if Consumes(op) {
        Eating(P, t, vm);
      } else if op == ON_FAILURE_JUMP {
        Branching(P, t, vm);
      } else if IsBack(op) {
        Looping(P, t, vm);
      } else {
        Passing(P, t, vm);
      }
    }
  }

  lemma EndKeeps(P: Code, t: Text, vm: Vm)
    requires Inv(P, t, vm) && vm.p == |P|
    ensures Kept(P, t, vm, Exec(t, vm))
  {
    hide Program, StackGood, InLoop, StackCost;
  }

  ghost predicate FailKept(P: Code, t: Text, vm: Vm, o: Outcome)
    requires InvFail(P, t, vm)
  {
    match o
    case Next(vm') => Inv(P, t, vm') && Measure(P, t, vm') < StackCost(P, t, vm.stack)
    case Fails(vm') => InvFail(P, t, vm') && StackCost(P, t, vm'.stack) < StackCost(P, t, vm.stack)
    case Done(r) => r == vm.best
  }

  // A failure point leads to a place outside every loop: the test for a backward jump there
  // always fails.
  lemma BacktrackIs(P: Code, t: Text, vm: Vm)
    requires InvFail(P, t, vm)
    ensures
      if vm.stack == [] then Backtrack(vm) == Done(vm.best)
      else
        var top := vm.stack[|vm.stack| - 1];
        var vm' := vm.(stack := vm.stack[..|vm.stack| - 1]);
        Backtrack(vm) == if top.Dummy? then Fails(vm') else Next(vm'.(p := top.pat, d := top.str))
  {
    hide Program, StackGood, Rewritten, Extract;
    if vm.stack != [] {
      PopCost(P, t, vm.stack);
      var top := vm.stack[|vm.stack| - 1];
      if top.Point? && top.pat < |P| {
        SameOp(P, vm.code, top.pat);
        RewrittenLength(P, vm.code);
      } else {
        RewrittenLength(P, vm.code);
      }
    }
  }

  lemma BacktrackKeeps(P: Code, t: Text, vm: Vm)
    requires InvFail(P, t, vm)
    ensures FailKept(P, t, vm, Backtrack(vm))
  {
    hide Program, StackGood, Rewritten, Backtrack, StackCost, Cost, Place, IsEnd;
    BacktrackIs(P, t, vm);
    if vm.stack != [] {
      PopCost(P, t, vm.stack);
    }
  }

  // The whole run. It depends on the original code only, not on how much of it has been
  // rewritten already: see RunIgnoresRewriting.
  ghost function Run(P: Code, t: Text, vm: Vm): (r: Option<nat>)
    requires Inv(P, t, vm)
    decreases Measure(P, t, vm), 1
  {
    ExecKeeps(P, t, vm);
    match Exec(t, vm)
    case Next(vm') => Run(P, t, vm')
    case Fails(vm') => RunFail(P, t, vm')
    case Done(r) => r
  }

  ghost function RunFail(P: Code, t: Text, vm: Vm): (r: Option<nat>)
    requires InvFail(P, t, vm)
    decreases StackCost(P, t, vm.stack), 0
  {
    BacktrackKeeps(P, t, vm);
    match Backtrack(vm)
    case Next(vm') => Run(P, t, vm')
    case Fails(vm') => RunFail(P, t, vm')
    case Done(r) => r
  }
}
