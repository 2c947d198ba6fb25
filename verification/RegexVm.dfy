/**
 The matcher as a machine, one instruction at a time: the pattern and text positions, the
 stack of failure points, the best match so far, and the code itself, which a
 `maybe_pop_jump' rewrites. One string, no translate table, newline_anchor 0.

 The memory instructions only record register contents here, and the registers are left out.
 They also guard a forced exit from a loop around a group; see NoForcedExit and RegexSound.
 */
module RegexVm {
  import opened Wrappers
  import opened RegexBytes
  import opened RegexSyntax
  import opened RegexGen
  import opened RegexNfa
  import opened RegexBlocks

  // A failure point: where to resume in the pattern and in the text. A dummy is skipped.
  datatype FailurePoint = Dummy | Point(pat: nat, str: nat)

  datatype Vm = Vm(code: Code, p: nat, d: nat, stack: seq<FailurePoint>, best: Option<nat>)

  datatype Outcome =
    | Next(vm: Vm)
    | Fails(vm: Vm)
    | Done(result: Option<nat>)

  // ----- maybe_pop_jump -----

  function ByteAt(P: Code, x: int): byte {
    if 0 <= x < |P| then P[x] else 0
  }

  // Byte x of the bitmap of the set at a.
  function MapByte(P: Code, a: int, x: nat): byte {
    ByteAt(P, a + 2 + x)
  }

  // What follows a loop, past group commands and the two jumps that start a `+'.
  function SkipMemory(P: Code, p2: nat): (r: nat)
    ensures p2 <= r && (p2 <= |P| ==> r <= |P|)
    decreases |P| - p2
  {
    if p2 + 2 < |P| && IsMemory(P[p2]) then SkipMemory(P, p2 + 3)
    else if p2 + 6 < |P| && P[p2] == DUMMY_FAILURE_JUMP then SkipMemory(P, p2 + 6)
    else p2
  }

  // The bitmap test, with the byte-sized product of line 4671.
  predicate ListedInLoop(P: Code, b: int, c: byte) {
    c < ByteAt(P, b + 1) * 8 % 256 && Bit(MapByte(P, b, c / 8), c % 8)
  }

  // A `charset' after the loop: does the loop, at b, match nothing that it matches?
  predicate ApartFromSet(P: Code, b: int, p2: nat) {
    var n := ByteAt(P, p2 + 1);
    if ByteAt(P, b) == EXACTN then
      // The count byte of the exactn stands where its character is meant.
      var c := ByteAt(P, b + 1);
      !(n * 8 > c && Bit(MapByte(P, p2, c / 8), c % 8))
    else if ByteAt(P, b) == CHARSET_NOT then
      forall x: nat | x < n :: MapByte(P, p2, x) == 0 ||
        (x < ByteAt(P, b + 1) && Within(MapByte(P, p2, x), MapByte(P, b, x)))
    else if ByteAt(P, b) == CHARSET then
      forall x: nat | x < n && x < ByteAt(P, b + 1) :: !Meets(MapByte(P, p2, x), MapByte(P, b, x))
    else false
  }

  // An `exactn' after the loop.
  predicate ApartFromChar(P: Code, b: int, c: byte) {
    if ByteAt(P, b) == EXACTN then ByteAt(P, b + 2) != c
    else if ByteAt(P, b) == CHARSET then !ListedInLoop(P, b, c)
    else if ByteAt(P, b) == CHARSET_NOT then ListedInLoop(P, b, c)
    else false
  }

  // Whether the maybe_pop_jump at m becomes a pop_failure_jump.
  predicate Pops(P: Code, m: nat) {
    var p2 := SkipMemory(P, m + 3);
    var b := Head(P, m) + 3;
    || p2 == |P|
    || (ByteAt(P, p2) == EXACTN && ApartFromChar(P, b, ByteAt(P, p2 + 2)))
    || (ByteAt(P, p2) == CHARSET && ApartFromSet(P, b, p2))
  }

  function Choice(P: Code, m: nat): byte {
    if Pops(P, m) then POP_FAILURE_JUMP else JUMP
  }

  // ----- one instruction -----

  // The end of the code has been reached.
  function AtEnd(t: Text, vm: Vm): Outcome {
    if vm.d == |t| then Done(Some(vm.d))
    else if vm.stack != [] then
      Fails(vm.(best := if vm.best.None? || vm.d > vm.best.value then Some(vm.d) else vm.best))
    else if vm.best.Some? && vm.d <= vm.best.value then Done(vm.best)
    else Done(Some(vm.d))
  }

  function Jump(vm: Vm): Outcome
    requires vm.p + 3 <= |vm.code|
  {
    if Target(vm.code, vm.p) < 0 then Done(None) else Next(vm.(p := Target(vm.code, vm.p)))
  }

  function PopAndJump(vm: Vm): Outcome
    requires vm.p + 3 <= |vm.code|
  {
    if vm.stack == [] then Done(None)
    else Jump(vm.(stack := vm.stack[..|vm.stack| - 1]))
  }

  function Exec(t: Text, vm: Vm): Outcome {
    var Q := vm.code;
    if vm.p == |Q| then AtEnd(t, vm)
    else if vm.p > |Q| || InsLen(Q, vm.p) == 0 then Done(None)
    else
      var op := Q[vm.p];
      var next := vm.p + InsLen(Q, vm.p);
      if op == EXACTN then
        var n := Q[vm.p + 1];
        if vm.d + n <= |t| && t[vm.d..vm.d + n] == Q[vm.p + 2..next] then Next(vm.(p := next, d := vm.d + n))
        else Fails(vm)
      else if IsEater(op) then
        if vm.d < |t| && Eats(Q, vm.p, t[vm.d]) then Next(vm.(p := next, d := vm.d + 1)) else Fails(vm)
      else if op == ON_FAILURE_JUMP then
        if Target(Q, vm.p) < 0 then Done(None)
        else Next(vm.(p := next, stack := vm.stack + [Point(Target(Q, vm.p), vm.d)]))
      else if op == MAYBE_POP_JUMP then
        var vm' := vm.(code := Q[vm.p := Choice(Q, vm.p)]);
        if Pops(Q, vm.p) then PopAndJump(vm') else Jump(vm')
      else if op == POP_FAILURE_JUMP then PopAndJump(vm)
      else if op == DUMMY_FAILURE_JUMP then Jump(vm.(stack := vm.stack + [Dummy]))
      else if op == PUSH_DUMMY_FAILURE then Next(vm.(p := next, stack := vm.stack + [Dummy]))
      else if IsJump(op) then Jump(vm)
      else Next(vm.(p := next))
  }

  // One failure point is popped. A point at the backward jump of a loop is skipped too.
  function Backtrack(vm: Vm): Outcome {
    if vm.stack == [] then Done(vm.best)
    else
      var top := vm.stack[|vm.stack| - 1];
      var vm' := vm.(stack := vm.stack[..|vm.stack| - 1]);
      if top.Dummy? then Fails(vm')
      else if && top.pat + 3 <= |vm.code| && IsBack(vm.code[top.pat])
              && ByteAt(vm.code, Target(vm.code, top.pat)) == ON_FAILURE_JUMP then Fails(vm')
      else Next(vm'.(p := top.pat, d := top.str))
  }

  // The test at a stop_memory that would force an exit from a loop around a group: only the
  // register flags, which are not modelled, are left out of it.
  predicate ForcedExit(P: Code, a: nat)
    requires a + 3 <= |P| && P[a] == STOP_MEMORY
  {
    && a + 6 <= |P| && (IsBack(P[a + 3]) || P[a + 3] == DUMMY_FAILURE_JUMP)
    && Extract(P[a + 4], P[a + 5]) < 0
    && ByteAt(P, Target(P, a + 3)) == ON_FAILURE_JUMP
    && ByteAt(P, Target(P, a + 3) + 3) == START_MEMORY
    && ByteAt(P, Target(P, a + 3) + 4) == P[a + 1]
  }
}
