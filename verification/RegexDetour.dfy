/**
 A loop whose decision is wrong and does no harm, because a jump leads round it. In `(a*[a])?a*'
 the loop in the group takes every a and leaves none for the set after it; the matcher then
 resumes before the group, and the second loop takes them all. So for patterns with loops in
 optional groups the condition of the main theorem is sufficient and not necessary.
 */
module RegexDetour {
  import opened Wrappers
  import opened RegexBytes
  import opened RegexSyntax
  import opened RegexGen
  import opened RegexNfa
  import opened RegexMeaning
  import opened RegexBlocks
  import opened RegexVm
  import opened RegexVmProof
  import opened RegexVmRun
  import opened RegexMatch
  import opened RegexTame
  import opened RegexLost
  import opened RegexSteady
  import opened RegexDefect

  // ----- a loop whose failure points are discarded -----

  // t[d..e] is all that the instruction at b matches from d on.
  predicate TakesAll(P: Code, b: nat, t: Text, d: nat, e: nat)
    requires b < |P| && InsLen(P, b) > 0
  {
    && d <= e <= |t| && (forall x | d <= x < e :: Eats(P, b, t[x]))
    && (e < |t| ==> !Eats(P, b, t[e]))
  }

  // From vm the run goes on as from vm'.
  ghost predicate Leads(P: Code, t: Text, vm: Vm, vm': Vm) {
    Inv(P, t, vm) && Inv(P, t, vm') && Run(P, t, vm) == Run(P, t, vm')
  }

  lemma TakesMore(P: Code, b: nat, t: Text, d: nat, e: nat)
    requires b < |P| && InsLen(P, b) > 0 && d < |t| && Eats(P, b, t[d]) && TakesAll(P, b, t, d + 1, e)
    ensures TakesAll(P, b, t, d, e)
  {
  }

  lemma TakesNone(P: Code, b: nat, t: Text, d: nat)
    requires b < |P| && InsLen(P, b) > 0 && d <= |t| && (d < |t| ==> !Eats(P, b, t[d]))
    ensures TakesAll(P, b, t, d, d)
  {
  }

  lemma StepTo(P: Code, t: Text, vm: Vm, vm': Vm)
    requires Inv(P, t, vm) && Exec(t, vm) == Next(vm')
    ensures Leads(P, t, vm, vm')
  {
    hide Inv, Exec;
    ExecKeeps(P, t, vm);
  }

  // An instruction that does not match is left for the last failure point.
  lemma StepBack(P: Code, t: Text, vm: Vm, rest: seq<FailurePoint>, f: FailurePoint)
    requires Inv(P, t, vm) && vm.p < |P| && vm.p < |vm.code| && Consumes(vm.code[vm.p]) && Succ(P, t, vm.p, vm.d) == []
    requires vm.stack == rest + [f] && f.Point?
    ensures
      var vm' := vm.(stack := rest, p := f.pat, d := f.str);
      Leads(P, t, vm, vm')
  {
    Eating(P, t, vm);
    hide Inv, InvFail, Exec, Succ, Backtrack;
    ExecKeeps(P, t, vm);
    BacktrackKeeps(P, t, vm);
    BacktrackIs(P, t, vm);
    assert vm.stack[..|rest|] == rest;
    assert Run(P, t, vm) == RunFail(P, t, vm);
    assert RunFail(P, t, vm) == Run(P, t, vm.(stack := rest, p := f.pat, d := f.str));
  }

  lemma NoSucc(P: Code, t: Text, a: nat, i: nat)
    requires a < |P| && InsLen(P, a) > 0 && Consumes(P[a]) && (P[a] == EXACTN ==> P[a + 1] == 1)
    requires i <= |t| && (i < |t| ==> !Eats(P, a, t[i]))
    ensures Succ(P, t, a, i) == []
  {
    hide MapHas;
    if P[a] == EXACTN && i < |t| {
      assert t[i..i + 1][0] == t[i] && P[a + 2..a + 3][0] == P[a + 2];
    }
  }

  lemma OneRound(P: Code, t: Text, m: nat, vm: Vm) returns (Q: Code)
    requires Inv(P, t, vm) && IsEnd(P, m) && Pops(P, m) && vm.p == Head(P, m) && vm.d < |t|
    requires vm.p + 3 < |P| && InsLen(P, vm.p + 3) > 0 && Eats(P, vm.p + 3, t[vm.d])
    ensures
      var vm' := vm.(code := Q, d := vm.d + 1);
      Leads(P, t, vm, vm')
  {
    hide IsEnd, Pops, Head, Place, SkipMemory, ApartFromChar, ApartFromSet, StepsTo;
    LoopIs(P, m);
    hide Program, InLoop, Pops, Succ, Exec, InvFail, Eats, InsLen, Place;
    var v1 := EnterBody(P, t, m, vm);
    OneSucc(P, t, v1.p, v1.d);
    BodyNotEnd(P, v1.p);
    StartFacts(P, t, v1);
    Eating(P, t, v1);
    var v2 := v1.(p := m, d := vm.d + 1);
    StepTo(P, t, v1, v2);
    StartFacts(P, t, v2);
    Looping(P, t, v2);
    Q := v2.code[m := Choice(P, m)];
    assert v2.stack[..|vm.stack|] == vm.stack;
    StepTo(P, t, v2, vm.(code := Q, d := vm.d + 1));
  }

  lemma EnterBody(P: Code, t: Text, m: nat, vm: Vm) returns (vm': Vm)
    requires Inv(P, t, vm) && IsEnd(P, m) && vm.p == Head(P, m)
    ensures vm' == vm.(p := vm.p + 3, stack := vm.stack + [Point(m + 3, vm.d)])
    ensures Leads(P, t, vm, vm')
  {
    LoopIs(P, m);
    hide Program, InLoop, Succ, Exec, InvFail, InsLen, Place;
    StartFacts(P, t, vm);
    Branching(P, t, vm);
    vm' := vm.(p := vm.p + 3, stack := vm.stack + [Point(m + 3, vm.d)]);
    StepTo(P, t, vm, vm');
  }

  lemma LeaveLoop(P: Code, t: Text, m: nat, vm: Vm)
    requires Inv(P, t, vm) && IsEnd(P, m) && vm.p == Head(P, m)
    requires vm.p + 3 < |P| && InsLen(P, vm.p + 3) > 0 && (vm.d < |t| ==> !Eats(P, vm.p + 3, t[vm.d]))
    ensures
      var vm' := vm.(p := m + 3);
      Leads(P, t, vm, vm')
  {
    hide Eats, Target, IsJump, IsMemory, MapHas, Run, Program, Start, Consumes, Succ, IsBack, Choice;
    LoopIs(P, m);
    hide Program, InLoop, Succ, Exec, InvFail, Eats, InsLen, Place;
    var v1 := EnterBody(P, t, m, vm);
    NoSucc(P, t, v1.p, v1.d);
    BodyNotEnd(P, v1.p);
    StartFacts(P, t, v1);
    StepBack(P, t, v1, vm.stack, Point(m + 3, vm.d));
  }

  lemma LeadsOn(P: Code, t: Text, v0: Vm, v1: Vm, v2: Vm)
    requires Leads(P, t, v0, v1) && Leads(P, t, v1, v2)
    ensures Leads(P, t, v0, v2)
  {
    hide Inv, Run;
  }

  // Such a loop takes all it can and gives nothing back: it is left once, with the stack it was
  // entered with.
  lemma {:induction false} LoopTakesAll(P: Code, t: Text, m: nat, vm: Vm) returns (Q: Code, e: nat)
    requires Inv(P, t, vm) && IsEnd(P, m) && Pops(P, m) && vm.p == Head(P, m)
    ensures vm.p + 3 < |P| && InsLen(P, vm.p + 3) > 0 && TakesAll(P, vm.p + 3, t, vm.d, e)
    ensures Leads(P, t, vm, vm.(code := Q, p := m + 3, d := e))
    decreases |t| - vm.d
  {
    BodyFits(P, t, m, vm);
    hide Inv, Pops, Eats, InsLen, IsEnd, Run, Leads, Head, TakesAll;
    if vm.d < |t| && Eats(P, vm.p + 3, t[vm.d]) {
      var Q1 := OneRound(P, t, m, vm);
      var v1 := vm.(code := Q1, d := vm.d + 1);
      LeadsInv(P, t, vm, v1);
      Q, e := LoopTakesAll(P, t, m, v1);
      LeadsOn(P, t, vm, v1, vm.(code := Q, p := m + 3, d := e));
      TakesMore(P, vm.p + 3, t, vm.d, e);
    } else {
      LeaveLoop(P, t, m, vm);
      TakesNone(P, vm.p + 3, t, vm.d);
      Q, e := vm.code, vm.d;
    }
  }

  lemma LeadsInv(P: Code, t: Text, vm: Vm, vm': Vm)
    requires Leads(P, t, vm, vm')
    ensures Inv(P, t, vm')
  {
  }

  lemma BodyFits(P: Code, t: Text, m: nat, vm: Vm)
    requires Inv(P, t, vm) && IsEnd(P, m) && vm.p == Head(P, m)
    ensures vm.p + 3 < |P| && InsLen(P, vm.p + 3) > 0 && vm.d <= |t|
  {
    LoopIs(P, m);
  }

  // ----- the pattern -----

  // (a*b)?a*
  function Detour(a: Atom, b: Atom): Regex {
    Last(Then(Rep(Group(StarThen(a, b)), [Opt]), Then(Rep(a, [Star]), Empty)))
  }

  lemma DetourShape(a: Atom, b: Atom)
    requires OneChar(a) && OneChar(b) && WellFormedAtom(a) && WellFormedAtom(b)
    ensures WellFormed(Detour(a, b)) && SimpleRegex(Detour(a, b))
  {
    StarThenShape(a, b);
    assert ![Opt][0].Star?;
    assert !ManyOk([Opt]);
    var tail := Then(Rep(a, [Star]), Empty);
    assert WellFormedBranch(Empty) && SimpleBranch(Empty);
    assert WellFormedBranch(tail) && SimpleBranch(tail);
    var group := Rep(Group(StarThen(a, b)), [Opt]);
    assert WellFormedPiece(group) && SimplePiece(group);
    assert WellFormedBranch(Then(group, tail)) && SimpleBranch(Then(group, tail));
  }

  lemma DetourCode(a: Atom, b: Atom)
    requires OneChar(a) && OneChar(b)
    ensures
      var X, Y := AtomCode(a, 0), AtomCode(b, 0);
      var G := GroupCode(RepCode(X, true, true) + Y, 1, 0, false);
      RegexCode(Detour(a, b), 0) == RepCode(G, true, false) + RepCode(X, true, true)
  {
    var g := Group(StarThen(a, b));
    var tail := Then(Rep(a, [Star]), Empty);
    GroupIs(a, b);
    TailIs(a);
    NoGroups(a, b);
    assert [Opt][0] == Opt && ZeroOk([Opt]) && !ManyOk([Opt]);
    hide RepCode, GroupCode, ZeroOk, ManyOk, AtomCode, StarThen, GroupsA, BranchCode;
    FirstCode(Rep(g, [Opt]), tail, 0);
  }

  lemma GroupIs(a: Atom, b: Atom)
    requires OneChar(a) && OneChar(b)
    ensures AtomCode(Group(StarThen(a, b)), 0)
      == GroupCode(RepCode(AtomCode(a, 0), true, true) + AtomCode(b, 0), 1, 0, false)
  {
    StarThenCode(a, b, 1);
    NoGroups(a, b);
    hide RepCode, GroupCode, RegexCode;
  }

  lemma TailIs(a: Atom)
    requires OneChar(a)
    ensures BranchCode(Then(Rep(a, [Star]), Empty), [], 1) == RepCode(AtomCode(a, 0), true, true)
  {
    LoopFirst(a, Empty, 1);
    assert BranchCode(Empty, [], 1) == [];
  }

  lemma NoGroups(a: Atom, b: Atom)
    requires OneChar(a) && OneChar(b)
    ensures GroupsR(StarThen(a, b)) == 0 && GroupsA(Group(StarThen(a, b))) == 1
  {
    assert GroupsB(Then(Single(b), Empty)) == 0;
    assert GroupsB(StarThen(a, b).branch) == GroupsA(a) + GroupsB(Then(Single(b), Empty));
  }

  lemma DetourLayout(a: Atom, b: Atom)
    requires OneChar(a) && OneChar(b)
    ensures LaidOut(RegexCode(Detour(a, b), 0), AtomCode(a, 0), AtomCode(b, 0))
  {
    DetourCode(a, b);
    ShortAtom(a);
    ShortAtom(b);
    hide *;
    PartsLaidOut(RegexCode(Detour(a, b), 0), AtomCode(a, 0), AtomCode(b, 0));
  }

  // The two loops, what follows the first, and where the group ends.
  predicate LaidOut(P: Code, X: Code, Y: Code) {
    var m := 9 + |X|;
    var q := m + 6 + |Y|;
    && |P| == q + 6 + |X| <= 1000
    && P[0] == ON_FAILURE_JUMP && InsLen(P, 0) == 3 && Target(P, 0) == q
    && P[3] == START_MEMORY && InsLen(P, 3) == 3
    && LoopAt(P, 6, X) && At(P, m + 3, Y) && InsLen(P, q - 3) == 3
    && LoopAt(P, q, X)
  }

  lemma PutTogether(P: Code, X: Code, Y: Code)
    requires var q := 15 + |X| + |Y|; |P| == q + 6 + |X| <= 1000
    requires P[0] == ON_FAILURE_JUMP && InsLen(P, 0) == 3 && Target(P, 0) == 15 + |X| + |Y|
    requires P[3] == START_MEMORY && InsLen(P, 3) == 3 && InsLen(P, 12 + |X| + |Y|) == 3
    requires LoopAt(P, 6, X) && At(P, 12 + |X|, Y) && LoopAt(P, 15 + |X| + |Y|, X)
    ensures LaidOut(P, X, Y)
  {
  }

  lemma PartsLaidOut(P: Code, X: Code, Y: Code)
    requires 0 < |X| <= 34 && 0 < |Y| <= 34
    requires P == RepCode(GroupCode(RepCode(X, true, true) + Y, 1, 0, false), true, false) + RepCode(X, true, true)
    ensures LaidOut(P, X, Y)
  {
    hide *;
    var L := RepCode(X, true, true);
    var body := L + Y;
    var G := GroupCode(body, 1, 0, false);
    var R := RepCode(G, true, false);
    var q := 15 + |X| + |Y|;
    AtWhole(P);
    AtParts(P, 0, R, L);
    RepLayout(P, 0, G, true, false);
    GroupParts(P, 3, body);
    AtParts(P, 6, L, Y);
    LoopLaid(P, 6, X);
    LoopLaid(P, q, X);
    FailureAt(P, 0, |G|);
    PutTogether(P, X, Y);
  }

  lemma FailureAt(P: Code, s: nat, n: nat)
    requires At(P, s, Op1(ON_FAILURE_JUMP, n)) && n <= 1000
    ensures s < |P| && P[s] == ON_FAILURE_JUMP && InsLen(P, s) == 3 && s + 3 <= |P| && Target(P, s) == s + 3 + n
  {
    JumpAt(P, s, ON_FAILURE_JUMP, n);
  }

  lemma GroupParts(P: Code, s: nat, body: Code)
    requires At(P, s, GroupCode(body, 1, 0, false))
    ensures |GroupCode(body, 1, 0, false)| == |body| + 6 && At(P, s + 3, body)
    ensures s + 6 + |body| <= |P| && P[s] == START_MEMORY && InsLen(P, s) == 3 && InsLen(P, s + 3 + |body|) == 3
  {
    GroupLayout(P, s, body, 1, 0, false);
    hide GroupCode, InsLen, At;
    MemoryAt(P, s, START_MEMORY);
    MemoryAt(P, s + 3 + |body|, STOP_MEMORY);
  }

  predicate LoopAt(P: Code, s: nat, X: Code) {
    var m := s + 3 + |X|;
    && m + 3 <= |P| && InsLen(P, s) == 3 && At(P, s + 3, X)
    && IsBack(P[m]) && InsLen(P, m) == 3 && Target(P, m) == s
  }

  lemma LoopLaid(P: Code, s: nat, X: Code)
    requires At(P, s, RepCode(X, true, true)) && |X| <= 34
    ensures LoopAt(P, s, X) && |RepCode(X, true, true)| == |X| + 6
  {
    RepLayout(P, s, X, true, true);
    hide At, RepCode, InsLen;
    JumpAt(P, s, ON_FAILURE_JUMP, |X| + 3);
    JumpAt(P, s + 3 + |X|, MAYBE_POP_JUMP, -|X| - 6);
    JumpFits(P, s + 3 + |X|);
  }

  lemma MemoryAt(P: Code, s: nat, op: byte)
    requires IsMemory(op) && At(P, s, [op, 1, 0])
    ensures s < |P| && P[s] == op && InsLen(P, s) == 3
  {
    assert P[s..s + 3][0] == op;
  }

  // ----- its run -----

  ghost predicate TwoLoops(P: Code, m: nat, q: nat, k: nat) {
    && Program(P) && 0 < |P| && P[0] == ON_FAILURE_JUMP && Target(P, 0) == q
    && 3 < |P| && P[3] == START_MEMORY && InsLen(P, 3) == 3
    && IsEnd(P, m) && Head(P, m) == 6 && IsEnd(P, k) && Head(P, k) == q && k + 3 == |P|
    && m + 3 < |P| && Consumes(P[m + 3]) && (P[m + 3] == EXACTN ==> P[m + 4] == 1)
  }

  lemma DetourPlaces(a: Atom, b: Atom)
    requires OneChar(a) && OneChar(b) && WellFormedAtom(a) && WellFormedAtom(b)
    ensures
      var P, x, y := RegexCode(Detour(a, b), 0), |AtomCode(a, 0)|, |AtomCode(b, 0)|;
      |P| <= MAX_OFFSET && TwoLoops(P, 9 + x, 15 + x + y, 18 + x + y + x)
  {
    hide *;
    var P, X, Y := RegexCode(Detour(a, b), 0), AtomCode(a, 0), AtomCode(b, 0);
    DetourShape(a, b);
    DetourLayout(a, b);
    Fits(P, X, Y);
    CodeIsWellFormed(Detour(a, b));
    var m, q := 9 + |X|, 15 + |X| + |Y|;
    LaidLoops(P, X, Y);
    AtomEats(P, 9, a, 0);
    AtomEats(P, m + 3, b, 0);
    AtomEats(P, q + 3, a, 0);
    ScanTo(P, |X|, |Y|);
    TwoLoopsFrom(P, X, Y);
  }

  lemma Fits(P: Code, X: Code, Y: Code)
    requires LaidOut(P, X, Y)
    ensures |P| <= MAX_OFFSET
  {
    hide At, LoopAt, InsLen;
  }

  lemma LaidLoops(P: Code, X: Code, Y: Code)
    requires LaidOut(P, X, Y)
    ensures
      var m := 9 + |X|;
      var q := m + 6 + |Y|;
      && |P| == q + 6 + |X| && InsLen(P, 0) == 3 && InsLen(P, 3) == 3
      && InsLen(P, 6) == 3 && At(P, 9, X) && InsLen(P, m) == 3 && At(P, m + 3, Y)
      && InsLen(P, q - 3) == 3 && InsLen(P, q) == 3 && At(P, q + 3, X)
  {
    hide At, InsLen;
  }

  lemma ScanTo(P: Code, x: nat, y: nat)
    requires var q := 15 + x + y; x > 0 && y > 0 && |P| == q + 6 + x
    requires InsLen(P, 0) == 3 && InsLen(P, 3) == 3 && InsLen(P, 6) == 3 && InsLen(P, 9) == x
    requires InsLen(P, 9 + x) == 3 && InsLen(P, 12 + x) == y && InsLen(P, 12 + x + y) == 3
    requires InsLen(P, 15 + x + y) == 3 && InsLen(P, 18 + x + y) == x
    ensures Scan(P, 0, 9 + x) && Scan(P, 0, 18 + x + y + x)
  {
    hide *;
    ScanOne(P, 0);
    ScanStep(P, 0, 3);
    ScanStep(P, 0, 6);
    ScanStep(P, 0, 9);
    ScanStep(P, 0, 9 + x);
    ScanStep(P, 0, 12 + x);
    ScanStep(P, 0, 12 + x + y);
    ScanStep(P, 0, 15 + x + y);
    ScanStep(P, 0, 18 + x + y);
  }

  lemma TwoLoopsFrom(P: Code, X: Code, Y: Code)
    requires LaidOut(P, X, Y) && WellFormedCode(P) && Simple(P, 0, |P|) && |Y| > 0
    requires Scan(P, 0, 9 + |X|) && Scan(P, 0, 18 + |X| + |Y| + |X|)
    requires var e := 12 + |X|; (P[e] == EXACTN || IsEater(P[e])) && (P[e] == EXACTN ==> e + 1 < |P| && P[e + 1] == 1)
    ensures TwoLoops(P, 9 + |X|, 15 + |X| + |Y|, 18 + |X| + |Y| + |X|)
  {
    hide WellFormedCode, Simple, At, Scan, InsLen, Target;
    HeadIs(P, 9 + |X|);
    HeadIs(P, 18 + |X| + |Y| + |X|);
  }

  lemma HeadIs(P: Code, m: nat)
    requires m + 3 <= |P|
    ensures Head(P, m) == Target(P, m)
  {
  }

  // What the run needs of the code: two loops that give nothing back, the second and what
  // follows the first over the same characters or fewer.
  ghost predicate Shadowed(P: Code, m: nat, q: nat, k: nat) {
    && TwoLoops(P, m, q, k) && Pops(P, m)
    && 9 < |P| && InsLen(P, 9) > 0 && InsLen(P, m + 3) > 0 && q + 3 < |P| && InsLen(P, q + 3) > 0
    && forall c: byte :: Eats(P, m + 3, c) ==> Eats(P, 9, c)
  }

  // The first loop gives nothing back, so what follows it finds nothing; the failure point of the
  // group is resumed, and the second loop takes all.
  lemma DetourRun(P: Code, m: nat, q: nat, k: nat, t: Text, pos: nat) returns (e: nat)
    requires Shadowed(P, m, q, k) && pos <= |t|
    ensures Program(P) && MatchEnd(P, t, pos) == Some(e)
    ensures q + 3 < |P| && InsLen(P, q + 3) > 0 && TakesAll(P, q + 3, t, pos, e)
  {
    hide *;
    ShadowedParts(P, m, q, k);
    var v2 := ToLoop(P, m, q, k, t, pos);
    var Q, d := LoopTakesAll(P, t, m, v2);
    var v3 := v2.(code := Q, p := m + 3, d := d);
    LeadsOn(P, t, Begin(P, pos), v2, v3);
    LeadsInv(P, t, v2, v3);
    NothingLeft(P, m, q, k, t, pos, v3);
    var v4 := v3.(stack := [], p := q, d := pos);
    LeadsOn(P, t, Begin(P, pos), v3, v4);
    LastPops(P, k);
    LeadsInv(P, t, v3, v4);
    Q, e := LoopTakesAll(P, t, k, v4);
    var v5 := v4.(code := Q, p := k + 3, d := e);
    LeadsOn(P, t, Begin(P, pos), v4, v5);
    EndsAt(P, t, pos, v5);
  }

  lemma ShadowedParts(P: Code, m: nat, q: nat, k: nat)
    requires Shadowed(P, m, q, k)
    ensures Program(P) && IsEnd(P, m) && Head(P, m) == 6 && Pops(P, m) && IsEnd(P, k) && Head(P, k) == q && k + 3 == |P|
    ensures q + 3 < |P| && InsLen(P, q + 3) > 0
  {
  }

  lemma ToLoop(P: Code, m: nat, q: nat, k: nat, t: Text, pos: nat) returns (vm: Vm)
    requires Shadowed(P, m, q, k) && pos <= |t|
    ensures vm == Vm(P, 6, pos, [Point(q, pos)], None)
    ensures Leads(P, t, Begin(P, pos), vm) && Inv(P, t, vm)
  {
    assert Program(P) && TwoLoops(P, m, q, k);
    hide *;
    vm := Vm(P, 6, pos, [Point(q, pos)], None);
    var v1 := Vm(P, 3, pos, [Point(q, pos)], None);
    Enter(P, m, q, k, t, pos);
    LeadsInv(P, t, Begin(P, pos), v1);
    OpenGroup(P, m, q, k, t, v1);
    LeadsOn(P, t, Begin(P, pos), v1, vm);
    LeadsInv(P, t, v1, vm);
  }

  lemma Enter(P: Code, m: nat, q: nat, k: nat, t: Text, pos: nat)
    requires TwoLoops(P, m, q, k) && pos <= |t|
    ensures Leads(P, t, Begin(P, pos), Vm(P, 3, pos, [Point(q, pos)], None))
  {
    var v0 := Begin(P, pos);
    BeginInv(P, t, pos);
    hide Program, Inv, Exec, Eats, Leads, Run, IsEnd, InsLen, Succ;
    Branching(P, t, v0);
    assert [] + [Point(q, pos)] == [Point(q, pos)];
    StepTo(P, t, v0, Vm(P, 3, pos, [Point(q, pos)], None));
  }

  lemma OpenGroup(P: Code, m: nat, q: nat, k: nat, t: Text, vm: Vm)
    requires TwoLoops(P, m, q, k) && Inv(P, t, vm) && vm.p == 3 && vm.code == P
    ensures Leads(P, t, vm, vm.(p := 6))
  {
    hide Program, Inv, Exec, Eats, Leads, Run, IsEnd, InsLen;
    Passing(P, t, vm);
    assert vm.stack + [] == vm.stack;
    StepTo(P, t, vm, vm.(p := 6));
  }

  // After the first loop there is no character for what follows it.
  lemma NothingLeft(P: Code, m: nat, q: nat, k: nat, t: Text, pos: nat, vm: Vm)
    requires Shadowed(P, m, q, k) && pos <= |t| && Inv(P, t, vm)
    requires vm.p == m + 3 && vm.stack == [Point(q, pos)] && TakesAll(P, 9, t, pos, vm.d)
    ensures Leads(P, t, vm, vm.(stack := [], p := q, d := pos)) && Inv(P, t, vm.(stack := [], p := q, d := pos))
  {
    NoSucc(P, t, m + 3, vm.d);
    BodyNotEnd(P, m + 3);
    hide Program, Inv, Exec, Pops, Eats, Leads, Run, Succ;
    StartFacts(P, t, vm);
    assert [] + [Point(q, pos)] == [Point(q, pos)];
    StepBack(P, t, vm, [], Point(q, pos));
    LeadsInv(P, t, vm, vm.(stack := [], p := q, d := pos));
  }

  // A loop at the end of the code gives nothing back.
  lemma LastPops(P: Code, k: nat)
    requires k + 3 == |P|
    ensures Pops(P, k)
  {
  }

  lemma EndsAt(P: Code, t: Text, pos: nat, vm: Vm)
    requires Program(P) && pos <= |t| && Leads(P, t, Begin(P, pos), vm) && vm.p == |P| && vm.stack == [] && vm.best == None
    ensures MatchEnd(P, t, pos) == Some(vm.d)
  {
    RewrittenLength(P, vm.code);
    hide Program, StackGood, InLoop;
    ExecAtEnd(t, vm);
  }

  // ----- what it should find -----

  // All of w is matched by the atom, character by character.
  ghost predicate Each(a: Atom, w: Text)
    requires OneChar(a)
  {
    forall x | 0 <= x < |w| :: AtomHas(a, w[x])
  }

  lemma {:induction false} EachOfPower(a: Atom, n: nat, w: Text)
    requires OneChar(a) && w in Power(AtomLang(a), n)
    ensures Each(a, w)
    decreases n
  {
    if n > 0 {
      var u, v := CatElim(AtomLang(a), Power(AtomLang(a), n - 1), w);
      AtomHasLang(a, u);
      EachOfPower(a, n - 1, v);
    }
  }

  lemma EachOfStar(a: Atom, w: Text)
    requires OneChar(a) && w in PieceLang(Rep(a, [Star]))
    ensures Each(a, w)
  {
    OpsCollapse(AtomLang(a), [Star]);
    StarOps();
    var n: nat :| w in Power(AtomLang(a), n);
    EachOfPower(a, n, w);
  }

  lemma OneMore(p: Piece, w: Text) returns (u: Text)
    requires w in BranchLang(Then(p, Empty))
    ensures w == u && u in PieceLang(p)
  {
    var v;
    u, v := CatElim(PieceLang(p), BranchLang(Empty), w);
  }

  lemma EachOfInner(a: Atom, b: Atom, w: Text)
    requires OneChar(a) && OneChar(b) && w in RegexLang(StarThen(a, b))
    requires forall c: byte | AtomHas(b, c) :: AtomHas(a, c)
    ensures Each(a, w)
  {
    var tail := Then(Single(b), Empty);
    assert RegexLang(StarThen(a, b)) == Cat(PieceLang(Rep(a, [Star])), BranchLang(tail));
    var u, v := CatElim(PieceLang(Rep(a, [Star])), BranchLang(tail), w);
    EachOfStar(a, u);
    var z := OneMore(Single(b), v);
    AtomHasLang(b, v);
  }

  lemma EachOfDetour(a: Atom, b: Atom, w: Text)
    requires OneChar(a) && OneChar(b) && w in RegexLang(Detour(a, b))
    requires forall c: byte | AtomHas(b, c) :: AtomHas(a, c)
    ensures Each(a, w)
  {
    var g := Group(StarThen(a, b));
    var tail := Then(Rep(a, [Star]), Empty);
    assert RegexLang(Detour(a, b)) == Cat(PieceLang(Rep(g, [Opt])), BranchLang(tail));
    var u, v := CatElim(PieceLang(Rep(g, [Opt])), BranchLang(tail), w);
    var z := OneMore(Rep(a, [Star]), v);
    EachOfStar(a, v);
    assert ApplyOps(AtomLang(g), [Opt]) == OptOf(ApplyOps(AtomLang(g), []));
    if u != [] {
      EachOfInner(a, b, u);
    }
  }

  // ----- the counterexample -----

  lemma DetourShadows(a: Atom, b: Atom)
    requires OneChar(a) && OneChar(b) && WellFormedAtom(a) && WellFormedAtom(b)
    requires CountByteHits(a, b) || FullMapHits(a, b)
    requires forall c: byte | AtomHas(b, c) :: AtomHas(a, c)
    ensures
      var P, x, y := RegexCode(Detour(a, b), 0), |AtomCode(a, 0)|, |AtomCode(b, 0)|;
      && Shadowed(P, 9 + x, 15 + x + y, 18 + x + y + x) && !Harmless(P)
      && forall c: byte :: Eats(P, 18 + x + y, c) <==> AtomHas(a, c)
  {
    hide *;
    var P, X, Y := RegexCode(Detour(a, b), 0), AtomCode(a, 0), AtomCode(b, 0);
    var m, q, k := 9 + |X|, 15 + |X| + |Y|, 18 + |X| + |Y| + |X|;
    DetourPlaces(a, b);
    DetourLayout(a, b);
    LaidLoops(P, X, Y);
    AtomEats(P, 9, a, 0);
    AtomEats(P, m + 3, b, 0);
    AtomEats(P, q + 3, a, 0);
    TwoLoopsParts(P, m, q, k);
    BytesLose(P, m, a, b);
    var c := CommonStart(P, m);
    Shadows(P, m, q, k);
    Harms(P, m);
  }

  lemma TwoLoopsParts(P: Code, m: nat, q: nat, k: nat)
    requires TwoLoops(P, m, q, k)
    ensures Program(P) && IsEnd(P, m) && Head(P, m) == 6
  {
  }

  lemma Shadows(P: Code, m: nat, q: nat, k: nat)
    requires TwoLoops(P, m, q, k) && IsEnd(P, m) && Pops(P, m)
    requires 9 < |P| && InsLen(P, 9) > 0 && m + 3 < |P| && InsLen(P, m + 3) > 0 && q + 3 < |P| && InsLen(P, q + 3) > 0
    requires forall c: byte :: Eats(P, m + 3, c) ==> Eats(P, 9, c)
    ensures Shadowed(P, m, q, k)
  {
  }

  lemma Harms(P: Code, m: nat)
    requires Program(P) && IsEnd(P, m) && (LostByCountByte(P, m) || LostByFullMap(P, m))
    ensures !Harmless(P)
  {
  }

  // What the matcher finds is in the language.
  lemma FoundIsWord(r: Regex, t: Text, pos: nat, e: nat)
    requires WellFormed(r) && |RegexCode(r, 0)| <= MAX_OFFSET && Program(RegexCode(r, 0)) && pos <= |t|
    requires MatchEnd(RegexCode(r, 0), t, pos) == Some(e)
    ensures pos <= e <= |t| && t[pos..e] in RegexLang(r)
  {
    var P := RegexCode(r, 0);
    BeginInv(P, t, pos);
    RunSound(P, t, Begin(P, pos));
    BeginReaches(P, t, pos, e);
    CodeMeansLanguage(r, t, pos, e);
  }

  lemma EachAt(a: Atom, t: Text, pos: nat, j: nat, x: nat)
    requires OneChar(a) && pos <= x < j <= |t| && Each(a, t[pos..j])
    ensures AtomHas(a, t[x])
  {
    hide AtomHas;
    assert t[pos..j][x - pos] == t[x];
  }

  lemma NotBeyond(P: Code, b: nat, a: Atom, t: Text, pos: nat, e: nat, j: nat)
    requires b < |P| && InsLen(P, b) > 0 && TakesAll(P, b, t, pos, e)
    requires OneChar(a) && forall c: byte :: Eats(P, b, c) <==> AtomHas(a, c)
    requires pos <= j <= |t| && Each(a, t[pos..j])
    ensures j <= e
  {
    hide Each, Eats, AtomHas, InsLen;
    if e < j {
      EachAt(a, t, pos, j, e);
    }
  }

  lemma DetourAt(a: Atom, b: Atom, t: Text, pos: nat)
    requires OneChar(a) && OneChar(b) && WellFormedAtom(a) && WellFormedAtom(b)
    requires CountByteHits(a, b) || FullMapHits(a, b)
    requires (forall c: byte | AtomHas(b, c) :: AtomHas(a, c)) && pos <= |t|
    ensures Program(RegexCode(Detour(a, b), 0)) && Right(RegexCode(Detour(a, b), 0), RegexLang(Detour(a, b)), t, pos)
  {
    hide RegexCode, AtomCode, Shadowed, Detour, RegexLang, Harmless, MatchEnd, Eats, InsLen, TwoLoops, Program, AtomHas,
      CountByteHits, FullMapHits, WellFormed, SimpleRegex, WellFormedAtom, TakesAll, Each;
    var r := Detour(a, b);
    var P, x, y := RegexCode(r, 0), |AtomCode(a, 0)|, |AtomCode(b, 0)|;
    DetourShape(a, b);
    DetourPlaces(a, b);
    DetourShadows(a, b);
    var e := DetourRun(P, 9 + x, 15 + x + y, 18 + x + y + x, t, pos);
    FoundIsWord(r, t, pos, e);
    forall j: nat | pos <= j <= |t| && t[pos..j] in RegexLang(r)
      ensures j <= e
    {
      EachOfDetour(a, b, t[pos..j]);
      NotBeyond(P, 18 + x + y, a, t, pos, e, j);
    }
  }

  // Where the class b is within a and the loop before b has a defect, the matcher is right on
  // every text all the same.
  lemma DetourRight(a: Atom, b: Atom)
    requires OneChar(a) && OneChar(b) && WellFormedAtom(a) && WellFormedAtom(b)
    requires CountByteHits(a, b) || FullMapHits(a, b)
    requires forall c: byte | AtomHas(b, c) :: AtomHas(a, c)
    ensures WellFormed(Detour(a, b)) && SimpleRegex(Detour(a, b)) && |RegexCode(Detour(a, b), 0)| <= MAX_OFFSET
    ensures Program(RegexCode(Detour(a, b), 0)) && !Harmless(RegexCode(Detour(a, b), 0))
    ensures AlwaysRight(RegexCode(Detour(a, b), 0), RegexLang(Detour(a, b)))
  {
    hide RegexCode, AtomCode, Shadowed, Detour, RegexLang, Harmless, Right, TwoLoops, Program, AtomHas, CountByteHits,
      FullMapHits, WellFormed, SimpleRegex, WellFormedAtom;
    DetourShape(a, b);
    DetourPlaces(a, b);
    DetourShadows(a, b);
    var P, x, y := RegexCode(Detour(a, b), 0), |AtomCode(a, 0)|, |AtomCode(b, 0)|;
    TwoLoopsParts(P, 9 + x, 15 + x + y, 18 + x + y + x);
    forall t: Text, pos: nat | pos <= |t|
      ensures Program(RegexCode(Detour(a, b), 0)) && Right(RegexCode(Detour(a, b), 0), RegexLang(Detour(a, b)), t, pos)
    {
      DetourAt(a, b, t, pos);
    }
  }

  // (a*[a])?a*: no alternative, a defect, and right on every text.
  lemma HarmlessNotNeeded()
    ensures
      var c: byte := 'a' as int;
      var r := Detour(Chr(c), Listed([One(c)]));
      var P := RegexCode(r, 0);
      && WellFormed(r) && SimpleRegex(r) && |P| <= MAX_OFFSET
      && Program(P) && !Harmless(P) && AlwaysRight(P, RegexLang(r))
  {
    var c: byte := 'a' as int;
    ListedIs(c, c);
    hide BracketHas, RegexCode, RegexLang, Detour, Harmless, AlwaysRight;
    assert CountByteHits(Chr(c), Listed([One(c)]));
    DetourRight(Chr(c), Listed([One(c)]));
  }
}
