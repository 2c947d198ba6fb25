/**
 Every turn of the compiler keeps the addresses in the code right, whatever the pattern: what
 the compiler may still insert at, or go back to, are cuts.
 */
module RegexLandingProof {
  import opened Wrappers
  import opened RegexBytes
  import opened RegexSyntax
  import opened RegexGen
  import opened RegexNfa
  import opened RegexMeaning
  import opened RegexCompileSpec
  import opened RegexBounds
  import opened RegexCompileProof
  import opened RegexLanding

  // ----- reserved jumps, and the levels of open groups -----

  function Hole(fixup: Option<nat>): set<nat> {
    if fixup.Some? then {fixup.value} else {}
  }

  function StackHoles(stack: seq<Frame>): set<nat> {
    if stack == [] then {} else StackHoles(stack[..|stack| - 1]) + Hole(stack[|stack| - 1].fixup)
  }

  function Holes(st: CState): set<nat> {
    StackHoles(st.stack) + Hole(st.fixup)
  }

  // Where the innermost open group begins, after its start_memory.
  function LowOf(stack: seq<Frame>): nat {
    if stack == [] then 0 else stack[|stack| - 1].laststart + HeadLength(stack[|stack| - 1].regnum)
  }

  predicate HoleOk(P: Code, z: nat, fixup: Option<nat>, begalt: nat) {
    fixup.Some? ==>
      var h := fixup.value;
      z <= h && h + 3 <= begalt <= |P| && Walk(P, z, h) && (P[h] == NO_OP || P[h] == JUMP_PAST_ALT)
  }

  predicate MemoryOk(P: Code, f: Frame) {
    f.laststart + HeadLength(f.regnum) <= |P| && (f.regnum <= MAX_REGNUM ==> P[f.laststart] == START_MEMORY)
  }

  ghost predicate Levels(P: Code, H: set<nat>, stack: seq<Frame>, fixup: Option<nat>, begalt: nat)
    decreases |stack|
  {
    var z := LowOf(stack);
    && Cut(P, H, z) && z <= begalt && Cut(P, H, begalt) && HoleOk(P, z, fixup, begalt)
    && (stack != [] ==>
          var f := stack[|stack| - 1];
          && f.begalt <= f.laststart && Cut(P, H, f.laststart) && MemoryOk(P, f)
          && Levels(P, H, stack[..|stack| - 1], f.fixup, f.begalt))
  }

  // An open exactn begins at a cut.
  ghost predicate PendingOk(st: CState)
    requires Good(st)
  {
    st.pending.Some? ==>
      var q := st.pending.value;
      && st.begalt < q && st.code[q - 1] == EXACTN && Cut(st.code, Holes(st), q - 1)
      && st.laststart.Some? && st.laststart.value < |st.code|
  }

  ghost predicate Landing(st: CState) {
    && Good(st) && Levels(st.code, Holes(st), st.stack, st.fixup, st.begalt)
    && (st.laststart.Some? ==> Cut(st.code, Holes(st), st.laststart.value))
    && PendingOk(st)
  }

  // ----- what stays -----

  lemma EndCut(P: Code, H: set<nat>, c: nat)
    requires Cut(P, H, c)
    ensures Cut(P, H, |P|)
  {
    hide *;
    CutIs(P, H, c);
    CutIs(P, H, |P|);
    ClosedJoin(P, H, 0, c, |P|);
    ClosedNone(P, H, |P|);
  }

  lemma AllSame(H: set<nat>, z: nat)
    ensures SameHoles(H, 0, z, H, 0)
  {
  }

  lemma HoleKept(P: Code, Q: Code, z: nat, fixup: Option<nat>, begalt: nat, k: nat)
    requires HoleOk(P, z, fixup, begalt) && begalt <= k && k <= |P| && k <= |Q| && Q[..k] == P[..k]
    ensures HoleOk(Q, z, fixup, begalt)
  {
    if fixup.Some? {
      var h := fixup.value;
      assert Q[0..k] == P[0..k];
      SameSlice(P, 0, k, Q, 0, z, h);
      WalkMoved(P, z, h, Q, z);
      assert Q[h] == Q[..k][h] == P[..k][h];
    }
  }

  lemma MemoryKept(P: Code, Q: Code, f: Frame, k: nat)
    requires MemoryOk(P, f) && f.laststart + HeadLength(f.regnum) <= k && k <= |P| && k <= |Q| && Q[..k] == P[..k]
    ensures MemoryOk(Q, f)
  {
    if f.regnum <= MAX_REGNUM {
      assert Q[f.laststart] == Q[..k][f.laststart] == P[..k][f.laststart];
    }
  }

  // After a cut everything may be replaced by another block.
  lemma {:induction false} LevelsKept(P: Code, H: set<nat>, Q: Code, K: set<nat>, stack: seq<Frame>,
                                      fixup: Option<nat>, begalt: nat, z: nat)
    requires Levels(P, H, stack, fixup, begalt) && begalt <= z && Cut(P, H, z)
    requires z <= |P| && z <= |Q| && Q[..z] == P[..z] && SameHoles(H, 0, z, K, 0) && Closed(Q, K, z, |Q|)
    ensures Levels(Q, K, stack, fixup, begalt)
    decreases |stack|
  {
    hide Cut, Closed, HoleOk, MemoryOk, SameHoles;
    var low := LowOf(stack);
    CutKept(P, H, Q, K, low, z);
    CutKept(P, H, Q, K, begalt, z);
    HoleKept(P, Q, low, fixup, begalt, z);
    if stack != [] {
      var f := stack[|stack| - 1];
      CutKept(P, H, Q, K, f.laststart, z);
      MemoryKept(P, Q, f, z);
      LevelsKept(P, H, Q, K, stack[..|stack| - 1], f.fixup, f.begalt, z);
    }
  }

  // The tail from z, a cut, is replaced by another block.
  lemma TailReplaced(st: CState, st': CState, z: nat)
    requires Landing(st) && Good(st') && SamePlace(st, st') && st.begalt <= z && Cut(st.code, Holes(st), z)
    requires z <= |st.code| && z <= |st'.code| && st'.code[..z] == st.code[..z]
    requires Closed(st'.code, Holes(st'), z, |st'.code|)
    requires st'.laststart.Some? ==>
      (st'.laststart == st.laststart && st'.laststart.value <= z) || Cut(st'.code, Holes(st'), st'.laststart.value)
    requires st'.pending.None? || PendingOk(st')
    ensures Landing(st')
  {
    hide Good, Cut, Closed, Levels;
    var H := Holes(st);
    AllSame(H, z);
    LevelsKept(st.code, H, st'.code, H, st.stack, st.fixup, st.begalt, z);
    if st'.laststart.Some? && st'.laststart == st.laststart && st'.laststart.value <= z {
      CutKept(st.code, H, st'.code, H, st.laststart.value, z);
    }
  }

  lemma EndIsCut(st: CState)
    requires Landing(st)
    ensures Cut(st.code, Holes(st), |st.code|)
  {
    hide Cut;
    EndCut(st.code, Holes(st), st.begalt);
  }

  // ----- single instructions -----

  // An instruction without an address.
  predicate IsPlain(g: Code) {
    || (|g| == 1 && (g[0] == ANYCHAR || g[0] == PUSH_DUMMY_FAILURE))
    || (|g| == 3 && (IsMemory(g[0]) || g[0] == NO_OP))
    || (|g| >= 3 && g[0] == EXACTN && g[1] == |g| - 2)
    || (|g| >= 2 && (g[0] == CHARSET || g[0] == CHARSET_NOT) && g[1] <= 32 && g[1] == |g| - 2)
  }

  lemma PlainClosed(P: Code, H: set<nat>, s: nat, g: Code)
    requires At(P, s, g) && IsPlain(g)
    ensures Closed(P, H, s, s + |g|) && s + |g| <= |P|
  {
    assert P[s..s + |g|][0] == g[0] == P[s];
    assert |g| > 1 ==> P[s..s + |g|][1] == g[1] == P[s + 1];
    assert Width(P, s) == |g|;
    LeadsOne(P, H, s, s, s + |g|);
  }

  lemma JumpLeads(P: Code, H: set<nat>, s: nat, op: byte, arg: int, lo: nat, hi: nat)
    requires At(P, s, Op1(op, arg)) && IsJump(op) && -32768 <= arg <= MAX_OFFSET
    requires lo <= s + 3 + arg <= hi && Walk(P, lo, s + 3 + arg)
    ensures Leads(P, H, s, s + 3, lo, hi) && s + 3 <= |P|
  {
    JumpAt(P, s, op, arg);
    LeadsOne(P, H, s, lo, hi);
  }

  lemma CountedBytes(P: Code, s: nat, op: byte, arg1: int, arg2: int)
    requires At(P, s, Op2(op, arg1, arg2)) && (Counted(op) || op == SET_NUMBER_AT) && -32768 <= arg1 <= MAX_OFFSET
    ensures s + 5 <= |P| && P[s] == op && Width(P, s) == 5 && P[s + 3] == Low(arg2) && P[s + 4] == High(arg2)
    ensures Extract(P[s + 1], P[s + 2]) == arg1
  {
    StoreThenExtract(arg1);
    var g := Op2(op, arg1, arg2);
    assert P[s..s + 5][0] == g[0] && P[s..s + 5][1] == g[1] && P[s..s + 5][2] == g[2];
    assert P[s..s + 5][3] == g[3] && P[s..s + 5][4] == g[4];
  }

  lemma CountedLeads(P: Code, H: set<nat>, s: nat, op: byte, arg1: int, arg2: int, lo: nat, hi: nat)
    requires At(P, s, Op2(op, arg1, arg2)) && Counted(op) && -32768 <= arg1 <= MAX_OFFSET
    requires lo <= s + 3 + arg1 <= hi && Walk(P, lo, s + 3 + arg1)
    ensures Leads(P, H, s, s + 5, lo, hi)
  {
    CountedBytes(P, s, op, arg1, arg2);
    hide Op2;
    LeadsOne(P, H, s, lo, hi);
  }

  lemma SetLeads(P: Code, H: set<nat>, s: nat, arg1: int, n: int, x: nat, op: byte, arg: int, lo: nat, hi: nat)
    requires At(P, s, Op2(SET_NUMBER_AT, arg1, n)) && -32768 <= arg1 <= MAX_OFFSET && x == s + arg1
    requires At(P, x, Op2(op, arg, n)) && Counted(op) && -32768 <= arg <= MAX_OFFSET
    requires lo <= x && x + 5 <= hi && Walk(P, lo, x)
    ensures Leads(P, H, s, s + 5, lo, hi)
  {
    CountedBytes(P, s, SET_NUMBER_AT, arg1, n);
    CountedBytes(P, x, op, arg, n);
    hide Op2;
    LeadsOne(P, H, s, lo, hi);
  }

  // ----- characters -----

  lemma Appended(st: CState, st': CState, g: Code)
    requires Landing(st) && Good(st') && SamePlace(st, st') && st'.code == st.code + g && IsPlain(g)
    requires st'.laststart == st.laststart || st'.laststart == Some(|st.code|)
    requires st'.pending.None? || st'.pending == st.pending
             || (st'.pending == Some(|st.code| + 1) && g[0] == EXACTN && st'.laststart == Some(|st.code|))
    ensures Landing(st')
  {
    hide StackFits, Cut, Closed, Levels, PendingOk;
    var n := |st.code|;
    assert At(st'.code, n, g);
    PlainClosed(st'.code, Holes(st'), n, g);
    EndIsCut(st);
    AllSame(Holes(st), n);
    CutKept(st.code, Holes(st), st'.code, Holes(st'), n, n);
    PendingKept(st, st', g);
    TailReplaced(st, st', n);
  }

  lemma PendingKept(st: CState, st': CState, g: Code)
    requires Landing(st) && Good(st') && SamePlace(st, st') && st'.code == st.code + g && g != []
    requires st'.laststart == st.laststart || st'.laststart == Some(|st.code|)
    requires st'.pending.None? || st'.pending == st.pending
             || (st'.pending == Some(|st.code| + 1) && g[0] == EXACTN && st'.laststart == Some(|st.code|))
    requires Cut(st'.code, Holes(st'), |st.code|) && Closed(st'.code, Holes(st'), |st.code|, |st'.code|)
    ensures PendingOk(st')
  {
    hide Cut, Closed, Levels;
    var n := |st.code|;
    if st'.pending.Some? && st'.pending == st.pending {
      EndIsCut(st);
      AllSame(Holes(st), n);
      CutKept(st.code, Holes(st), st'.code, Holes(st'), st.pending.value - 1, n);
    }
  }

  // One more character in the exactn at the end.
  lemma Extended(st: CState, c: byte, next: byte)
    requires Landing(st) && !StartsExactn(st, next)
    ensures Landing(Literal(st, c, next))
  {
    hide Cut, Closed, Levels, IsRepChar;
    var st' := Literal(st, c, next);
    var q := st.pending.value;
    var z := q - 1;
    var H := Holes(st);
    ExactnLast(st);
    var g := st'.code[z..];
    assert At(st'.code, z, g) && g[0] == EXACTN && g[1] == |g| - 2;
    PlainClosed(st'.code, H, z, g);
    assert st'.code[..z] == st.code[..z];
    AllSame(H, z);
    CutKept(st.code, H, st'.code, H, z, z);
    TailReplaced(st, st', z);
  }

  lemma ExactnLast(st: CState)
    requires Landing(st) && st.pending.Some? && st.pending.value + st.code[st.pending.value] + 1 == |st.code|
    ensures st.laststart.Some? && st.laststart.value <= st.pending.value - 1 && st.code[st.pending.value] > 0
  {
    hide Levels;
    var z: nat := st.pending.value - 1;
    var H := Holes(st);
    CutBounds(st.code, H, z);
    CutBounds(st.code, H, st.laststart.value);
    hide Cut;
    WalkNext(st.code, z, z, |st.code|);
    if z < st.laststart.value {
      WalkNext(st.code, 0, z, st.laststart.value);
    }
  }

  lemma LiteralLands(st: CState, c: byte, next: byte)
    requires Landing(st)
    ensures Landing(Literal(st, c, next))
  {
    if StartsExactn(st, next) {
      hide Levels, Cut;
      Appended(st, Literal(st, c, next), [EXACTN, 1, c]);
    } else {
      Extended(st, c, next);
    }
  }

  lemma AnyCharLands(st: CState)
    requires Landing(st)
    ensures Landing(AnyChar(st))
  {
    hide Levels, Cut;
    Appended(st, AnyChar(st), [ANYCHAR]);
  }

  lemma BracketLands(pat: Text, p: nat, st: CState)
    requires Landing(st) && 1 <= p && ReadBracket(pat, p, st).Ok?
    ensures Landing(ReadBracket(pat, p, st).value.1)
  {
    hide Levels, Cut, BracketLoop, Trim;
    var negated := pat[p] == '^' as int;
    var first := if negated then p + 1 else p;
    var map8 := Trim(BracketLoop(pat, first, first, ZeroMap()).value.1);
    Appended(st, ReadBracket(pat, p, st).value.1, [if negated then CHARSET_NOT else CHARSET, |map8|] + map8);
  }

  // ----- repetition -----

  lemma WalkJump(P: Code, s: nat, op: byte, arg: int)
    requires At(P, s, Op1(op, arg)) && IsJump(op) && -32768 <= arg <= MAX_OFFSET
    ensures s + 3 <= |P| && Walk(P, s, s + 3)
  {
    JumpAt(P, s, op, arg);
    WalkOne(P, s);
  }

  lemma ClosedBounds(P: Code, H: set<nat>, s: nat, e: nat)
    requires Closed(P, H, s, e)
    ensures s <= e <= |P| && Walk(P, s, e)
  {
  }

  lemma RepClosed(P: Code, H: set<nat>, l: nat, X: Code, zeroOk: bool, manyOk: bool)
    requires |P| <= MAX_OFFSET && At(P, l, RepCode(X, zeroOk, manyOk))
    requires var b := l + if zeroOk then 3 else 6; Closed(P, H, b, b + |X|)
    ensures Closed(P, H, l, l + |RepCode(X, zeroOk, manyOk)|)
  {
    hide Op1, RepCode, At, Walk, Leads;
    RepLayout(P, l, X, zeroOk, manyOk);
    var f := l + if zeroOk then 0 else 3;
    var b, m := f + 3, f + 3 + |X|;
    var e := if manyOk then m + 3 else m;
    ClosedBounds(P, H, b, m);
    WalkJump(P, f, ON_FAILURE_JUMP, |X| + if manyOk then 3 else 0);
    WalkThrough(P, f, b, m);
    if manyOk {
      WalkJump(P, m, MAYBE_POP_JUMP, -|X| - 6);
      WalkThrough(P, f, m, e);
    }
    JumpLeads(P, H, f, ON_FAILURE_JUMP, |X| + if manyOk then 3 else 0, f, e);
    LeadsWiden(P, H, b, m, f, e);
    LeadsJoin(P, H, f, b, m, f, e);
    if manyOk {
      WalkSelf(P, f);
      JumpLeads(P, H, m, MAYBE_POP_JUMP, -|X| - 6, f, e);
      LeadsJoin(P, H, f, m, e, f, e);
    }
    if !zeroOk {
      WalkJump(P, l, DUMMY_FAILURE_JUMP, 3);
      WalkJump(P, f, ON_FAILURE_JUMP, |X| + if manyOk then 3 else 0);
      WalkThrough(P, l, f, b);
      JumpLeads(P, H, l, DUMMY_FAILURE_JUMP, 3, l, e);
      LeadsWiden(P, H, f, e, l, e);
      LeadsJoin(P, H, l, f, e, l, e);
    }
  }

  lemma WalkSelf(P: Code, s: int)
    ensures Walk(P, s, s)
  {
  }

  // Holes lie below the alternative being read.
  lemma {:induction false} StackHolesLow(stack: seq<Frame>, limit: nat, regnum: nat)
    requires StackFits(stack, limit, regnum)
    ensures forall h | h in StackHoles(stack) :: h + 3 <= limit
    decreases |stack|
  {
    if stack != [] {
      var f := stack[|stack| - 1];
      StackHolesLow(stack[..|stack| - 1], f.begalt, f.regnum);
    }
  }

  lemma HolesLow(st: CState)
    requires Good(st)
    ensures forall h | h in Holes(st) :: h + 3 <= st.begalt
  {
    StackHolesLow(st.stack, st.begalt, st.regnum);
  }

  // The operand, from a cut on, stands elsewhere.
  lemma OperandMoved(st: CState, Q: Code, l: nat, t: nat)
    requires Landing(st) && st.begalt <= l <= |st.code| && l <= t && Cut(st.code, Holes(st), l) && At(Q, t, st.code[l..])
    ensures Closed(Q, Holes(st), t, t + (|st.code| - l))
  {
    hide Leads, Levels, Good;
    var H := Holes(st);
    HolesLow(st);
    CutIs(st.code, H, l);
    assert SameHoles(H, l, |st.code|, H, t);
    assert Q[t..t + (|st.code| - l)] == st.code[l..|st.code|];
    ClosedMoved(st.code, H, l, |st.code|, Q, H, t);
  }

  lemma RepeatLands(st: CState, zeroOk: bool, manyOk: bool)
    requires Landing(st) && st.laststart.Some? && |Repeat(st, zeroOk, manyOk).code| <= MAX_OFFSET
    ensures Landing(Repeat(st, zeroOk, manyOk))
  {
    hide *;
    LandingParts(st);
    RepeatTail(st, zeroOk, manyOk);
    RepeatPlace(st, zeroOk, manyOk);
    var l := st.laststart.value;
    var X := st.code[l..];
    var st' := Repeat(st, zeroOk, manyOk);
    SameHoles2(st, st');
    RepLayout(st'.code, l, X, zeroOk, manyOk);
    OperandMoved(st, st'.code, l, l + if zeroOk then 3 else 6);
    RepClosed(st'.code, Holes(st), l, X, zeroOk, manyOk);
    TailReplaced(st, st', l);
  }

  lemma SameHoles2(st: CState, st': CState)
    requires SamePlace(st, st')
    ensures Holes(st') == Holes(st)
  {
  }

  // What is there once the jumps are put around the operand.
  lemma RepeatTail(st: CState, zeroOk: bool, manyOk: bool)
    requires Good(st) && st.laststart.Some?
    ensures
      var (l, st') := (st.laststart.value, Repeat(st, zeroOk, manyOk));
      var g := RepCode(st.code[l..], zeroOk, manyOk);
      && At(st'.code, l, g) && l + |g| == |st'.code| && st'.code[..l] == st.code[..l] && st'.pending == None
  {
    hide RepCode, Op1, InsertOp1, Good;
    GoodStart(st);
    var l := st.laststart.value;
    var base, X := st.code[..l], st.code[l..];
    assert base + X == st.code;
    RepeatCode(st, base, X, zeroOk, manyOk);
  }

  lemma LandingParts(st: CState)
    requires Landing(st)
    ensures Good(st) && (st.laststart.Some? ==> Cut(st.code, Holes(st), st.laststart.value))
    ensures st.laststart.Some? ==> st.begalt <= st.laststart.value <= |st.code|
  {
    hide Levels, Cut, Holes, PendingOk, StackFits;
  }

  lemma GoodStart(st: CState)
    requires Good(st) && st.laststart.Some?
    ensures st.begalt <= st.laststart.value <= |st.code|
  {
  }

  // ----- intervals -----

  lemma WalkCounted(P: Code, s: nat, op: byte, arg1: int, arg2: int)
    requires At(P, s, Op2(op, arg1, arg2)) && (Counted(op) || op == SET_NUMBER_AT) && -32768 <= arg1 <= MAX_OFFSET
    ensures s + 5 <= |P| && Walk(P, s, s + 5)
  {
    CountedBytes(P, s, op, arg1, arg2);
    WalkOne(P, s);
  }

  // At most once: a number to be set, the counted failure jump past the operand, the operand.
  lemma OnceClosed(P: Code, H: set<nat>, l: nat, X: Code, lower: nat)
    requires |P| <= MAX_OFFSET && At(P, l, IntervalCode(X, lower, 1)) && Closed(P, H, l + 10, l + 10 + |X|)
    ensures Closed(P, H, l, l + 10 + |X|)
  {
    hide Op2, At, Walk, Leads;
    var t, s := Op2(SET_NUMBER_AT, 5, lower), Op2(SUCCEED_N, |X| + 2, lower);
    AtParts(P, l, t, s + X);
    AtParts(P, l + 5, s, X);
    var e := l + 10 + |X|;
    ClosedBounds(P, H, l + 10, e);
    WalkCounted(P, l, SET_NUMBER_AT, 5, lower);
    WalkCounted(P, l + 5, SUCCEED_N, |X| + 2, lower);
    WalkThrough(P, l, l + 5, l + 10);
    WalkThrough(P, l, l + 10, e);
    SetLeads(P, H, l, 5, lower, l + 5, SUCCEED_N, |X| + 2, l, e);
    CountedLeads(P, H, l + 5, SUCCEED_N, |X| + 2, lower, l, e);
    LeadsWiden(P, H, l + 10, e, l, e);
    LeadsJoin(P, H, l, l + 5, l + 10, l, e);
    LeadsJoin(P, H, l, l + 10, e, l, e);
  }

  // More than once: both numbers to be set first, and a counted jump back after the operand.
  // The five parts of such an interval.
  lemma TimesParts(P: Code, l: nat, X: Code, lower: nat, upper: nat)
    requires upper > 1 && At(P, l, IntervalCode(X, lower, upper))
    ensures At(P, l, Op2(SET_NUMBER_AT, |X| + 15, upper - 1)) && At(P, l + 5, Op2(SET_NUMBER_AT, 5, lower))
    ensures At(P, l + 10, Op2(SUCCEED_N, |X| + 7, lower)) && At(P, l + 15, X)
    ensures At(P, l + 15 + |X|, Op2(JUMP_N, -|X| - 8, upper - 1)) && l + 20 + |X| <= |P|
  {
    hide Op2, At;
    var r, t := Op2(SET_NUMBER_AT, |X| + 15, upper - 1), Op2(SET_NUMBER_AT, 5, lower);
    var s, j := Op2(SUCCEED_N, |X| + 7, lower), Op2(JUMP_N, -|X| - 8, upper - 1);
    assert IntervalCode(X, lower, upper) == r + (t + (s + (X + j)));
    hide *;
    FiveParts(P, l, r, t, s, X, j);
  }

  lemma FiveParts(P: Code, l: nat, r: Code, t: Code, s: Code, X: Code, j: Code)
    requires At(P, l, r + (t + (s + (X + j))))
    ensures At(P, l, r) && At(P, l + |r|, t) && At(P, l + |r| + |t|, s) && At(P, l + |r| + |t| + |s|, X)
    ensures At(P, l + |r| + |t| + |s| + |X|, j) && l + |r| + |t| + |s| + |X| + |j| <= |P|
  {
    hide *;
    AtParts(P, l, r, t + (s + (X + j)));
    AtParts(P, l + |r|, t, s + (X + j));
    AtParts(P, l + |r| + |t|, s, X + j);
    AtParts(P, l + |r| + |t| + |s|, X, j);
    InsideCode(P, l + |r| + |t| + |s| + |X|, j);
  }

  lemma ClosedIs(P: Code, H: set<nat>, s: nat, e: nat)
    ensures Closed(P, H, s, e) <==> Leads(P, H, s, e, s, e)
  {
  }

  lemma TimesClosed(P: Code, H: set<nat>, l: nat, X: Code, lower: nat, upper: nat)
    requires |P| <= MAX_OFFSET && upper > 1 && At(P, l, IntervalCode(X, lower, upper))
    requires Closed(P, H, l + 15, l + 15 + |X|)
    ensures Closed(P, H, l, l + 20 + |X|)
  {
    hide Op2, At, Walk, Leads, Op1, IsBack, Low, High, Closed, IntervalCode;
    TimesParts(P, l, X, lower, upper);
    var m, e := l + 15 + |X|, l + 20 + |X|;
    ClosedBounds(P, H, l + 15, m);
    ClosedIs(P, H, l + 15, m);
    ClosedIs(P, H, l, e);
    WalkCounted(P, l, SET_NUMBER_AT, |X| + 15, upper - 1);
    WalkCounted(P, l + 5, SET_NUMBER_AT, 5, lower);
    WalkCounted(P, l + 10, SUCCEED_N, |X| + 7, lower);
    WalkCounted(P, m, JUMP_N, -|X| - 8, upper - 1);
    WalkThrough(P, l, l + 5, l + 10);
    WalkThrough(P, l, l + 10, l + 15);
    WalkThrough(P, l, l + 15, m);
    WalkThrough(P, l, m, e);
    SetLeads(P, H, l, |X| + 15, upper - 1, m, JUMP_N, -|X| - 8, l, e);
    SetLeads(P, H, l + 5, 5, lower, l + 10, SUCCEED_N, |X| + 7, l, e);
    CountedLeads(P, H, l + 10, SUCCEED_N, |X| + 7, lower, l, e);
    LeadsWiden(P, H, l + 15, m, l, e);
    CountedLeads(P, H, m, JUMP_N, -|X| - 8, upper - 1, l, e);
    LeadsJoin(P, H, l, l + 5, l + 10, l, e);
    LeadsJoin(P, H, l, l + 10, l + 15, l, e);
    LeadsJoin(P, H, l, l + 15, m, l, e);
    LeadsJoin(P, H, l, m, e, l, e);
  }

  lemma InsideCode(P: Code, s: nat, g: Code)
    requires At(P, s, g)
    ensures s + |g| <= |P|
  {
  }

  // No more than none: a jump over the operand.
  lemma NoneClosed(P: Code, H: set<nat>, l: nat, X: Code, lower: nat)
    requires |P| <= MAX_OFFSET && At(P, l, IntervalCode(X, lower, 0)) && Closed(P, H, l + 3, l + 3 + |X|)
    ensures Closed(P, H, l, l + 3 + |X|)
  {
    hide Op1, At, Walk, Leads;
    AtParts(P, l, Op1(JUMP, |X|), X);
    var e := l + 3 + |X|;
    ClosedBounds(P, H, l + 3, e);
    WalkJump(P, l, JUMP, |X|);
    WalkThrough(P, l, l + 3, e);
    JumpLeads(P, H, l, JUMP, |X|, l, e);
    LeadsWiden(P, H, l + 3, e, l, e);
    LeadsJoin(P, H, l, l + 3, e, l, e);
  }

  function OperandAt(upper: nat): nat {
    if upper == 0 then 3 else if upper == 1 then 10 else 15
  }

  lemma IntervalOperand(P: Code, l: nat, X: Code, lower: nat, upper: nat)
    requires At(P, l, IntervalCode(X, lower, upper))
    ensures At(P, l + OperandAt(upper), X)
  {
    hide Op1, Op2, At;
    if upper == 0 {
      AtParts(P, l, Op1(JUMP, |X|), X);
    } else if upper == 1 {
      var t, s := Op2(SET_NUMBER_AT, 5, lower), Op2(SUCCEED_N, |X| + 2, lower);
      AtParts(P, l, t, s + X);
      AtParts(P, l + 5, s, X);
    } else {
      TimesParts(P, l, X, lower, upper);
    }
  }

  lemma IntervalClosed(P: Code, H: set<nat>, l: nat, X: Code, lower: nat, upper: nat)
    requires |P| <= MAX_OFFSET && At(P, l, IntervalCode(X, lower, upper))
    requires Closed(P, H, l + OperandAt(upper), l + OperandAt(upper) + |X|)
    ensures Closed(P, H, l, l + |IntervalCode(X, lower, upper)|)
  {
    hide Closed, At, Op1, Op2;
    if upper == 0 {
      NoneClosed(P, H, l, X, lower);
    } else if upper == 1 {
      OnceClosed(P, H, l, X, lower);
    } else {
      TimesClosed(P, H, l, X, lower, upper);
    }
  }

  lemma IntervalLands(st: CState, lower: nat, upper: nat)
    requires Landing(st) && |Interval(st, lower, upper).code| <= MAX_OFFSET
    ensures Landing(Interval(st, lower, upper))
  {
    IntervalState(st, lower, upper);
    hide *;
    var st' := Interval(st, lower, upper);
    var l := st'.laststart.value;
    var base, X := st.code[..l], st.code[l..];
    assert base + X == st.code;
    IntervalIs(st, base, X, lower, upper);
    IntervalTail(st, st', l, lower, upper);
  }

  // What an interval leaves of the state.
  lemma IntervalState(st: CState, lower: nat, upper: nat)
    requires Landing(st)
    ensures
      var st' := Interval(st, lower, upper);
      && Good(st') && SamePlace(st, st') && st'.pending.None? && st'.laststart.Some? && st'.laststart.value <= |st.code|
      && st'.laststart.value == (if st.laststart.Some? then st.laststart.value else |st.code|)
  {
    hide Levels, Cut, StackFits, Op1, Op2, Inserted;
  }

  lemma IntervalTail(st: CState, st': CState, l: nat, lower: nat, upper: nat)
    requires Landing(st) && Good(st') && SamePlace(st, st') && |st'.code| <= MAX_OFFSET
    requires st.laststart == Some(l) || (st.laststart.None? && l == |st.code|)
    requires st'.code == st.code[..l] + IntervalCode(st.code[l..], lower, upper)
    requires st'.laststart == Some(l) && st'.pending.None?
    ensures Landing(st')
  {
    hide Levels, Cut, IntervalCode, Closed, StackFits;
    EndIsCut(st);
    var X := st.code[l..];
    var g := IntervalCode(X, lower, upper);
    assert At(st'.code, l, g) && l + |g| == |st'.code|;
    IntervalOperand(st'.code, l, X, lower, upper);
    OperandMoved(st, st'.code, l, l + OperandAt(upper));
    IntervalClosed(st'.code, Holes(st), l, X, lower, upper);
    AllSame(Holes(st), l);
    CutKept(st.code, Holes(st), st'.code, Holes(st'), l, l);
    TailReplaced(st, st', l);
  }

  // ----- the jump reserved after an alternative -----

  predicate IsSlot(op: byte) {
    op == NO_OP || op == JUMP_PAST_ALT
  }

  // The same code from z to e, but for the slot at h.
  predicate SameButHole(P: Code, Q: Code, z: nat, e: nat, h: nat) {
    && z <= h && h + 3 <= e && e <= |P| && e <= |Q|
    && P[z..h] == Q[z..h] && P[h + 3..e] == Q[h + 3..e] && IsSlot(P[h]) && IsSlot(Q[h])
  }

  lemma SlotWidth(P: Code, h: nat)
    requires h + 3 <= |P| && IsSlot(P[h])
    ensures Width(P, h) == 3 && Walk(P, h, h + 3)
  {
    WalkOne(P, h);
  }

  lemma WalkSealed(P: Code, Q: Code, z: nat, e: nat, h: nat, x: nat)
    requires SameButHole(P, Q, z, e, h) && Walk(P, z, h) && Walk(P, z, x) && z <= x <= e
    ensures Walk(Q, z, x)
  {
    hide Walk, Width;
    if x <= h {
      SameSlice(P, z, h, Q, z, z, x);
      WalkMoved(P, z, x, Q, z);
    } else {
      SlotWidth(P, h);
      SlotWidth(Q, h);
      WalkNext(P, z, h, x);
      WalkMoved(P, z, h, Q, z);
      WalkThrough(Q, z, h, h + 3);
      WalkOn(P, z, h, x);
      WalkOn(P, h, h + 3, x);
      SameSlice(P, h + 3, e, Q, h + 3, h + 3, x);
      WalkMoved(P, h + 3, x, Q, h + 3);
      WalkThrough(Q, z, h + 3, x);
    }
  }

  // An instruction that is not the slot is the same.
  lemma OtherIns(P: Code, Q: Code, z: nat, e: nat, h: nat, a: nat)
    requires SameButHole(P, Q, z, e, h) && Walk(P, z, h) && Walk(P, z, e) && StartOf(P, z, e, a) && a != h
    ensures Width(P, a) > 0 && a + Width(P, a) <= e && Q[a..a + Width(P, a)] == P[a..a + Width(P, a)]
  {
    hide Walk, Width;
    WalkNext(P, z, a, e);
    if a < h {
      WalkNext(P, z, a, h);
      SameSlice(P, z, h, Q, z, a, a + Width(P, a));
    } else {
      SlotWidth(P, h);
      WalkNext(P, z, h, a);
      SameSlice(P, h + 3, e, Q, h + 3, a, a + Width(P, a));
    }
  }

  lemma OtherLead(P: Code, H: set<nat>, Q: Code, K: set<nat>, z: nat, e: nat, h: nat, hi: nat, a: nat)
    requires SameButHole(P, Q, z, e, h) && Walk(P, z, h) && Walk(P, z, e) && StartOf(P, z, e, a) && a != h
    requires LeadOk(P, H, a, z, e) && (a in K <==> a in H) && e <= hi
    ensures LeadOk(Q, K, a, z, hi)
  {
    hide InsLen, Extract;
    var len := Width(P, a);
    OtherIns(P, Q, z, e, h, a);
    WidthSame(P, a, Q, a, len);
    assert P[a] == SET_NUMBER_AT ==> len == 5;
    hide Walk, Width, SameButHole;
    if Lead(P, H, a).Some? {
      var x := Lead(P, H, a).value;
      WalkSealed(P, Q, z, e, h, x);
      if P[a] == SET_NUMBER_AT {
        OtherIns(P, Q, z, e, h, x);
        WidthSame(P, x, Q, x, 5);
      }
    }
  }

  lemma SealedLeads(P: Code, H: set<nat>, Q: Code, K: set<nat>, z: nat, e: nat, h: nat, hi: nat)
    requires SameButHole(P, Q, z, e, h) && Walk(P, z, h) && Closed(P, H, z, e) && e <= hi
    requires forall a: nat | z <= a < e && a != h :: (a in K <==> a in H)
    requires LeadOk(Q, K, h, z, hi)
    ensures Leads(Q, K, z, e, z, hi)
  {
    hide LeadOk, Walk, Width;
    WalkSealed(P, Q, z, e, h, e);
    WalkSealed(P, Q, z, e, h, h);
    forall b: nat | StartOf(Q, z, e, b)
      ensures LeadOk(Q, K, b, z, hi)
    {
      if b != h {
        WalkSealed(Q, P, z, e, h, b);
        assert StartOf(P, z, e, b);
        OtherLead(P, H, Q, K, z, e, h, hi, b);
      }
    }
  }

  // The facts about the innermost level.
  lemma TopLevel(st: CState)
    requires Landing(st)
    ensures
      var z := LowOf(st.stack);
      && z <= st.begalt <= |st.code| && Cut(st.code, Holes(st), z) && Cut(st.code, Holes(st), st.begalt)
      && Closed(st.code, Holes(st), z, st.begalt) && HoleOk(st.code, z, st.fixup, st.begalt)
  {
    hide Leads;
    Middle(st.code, Holes(st), LowOf(st.stack), st.begalt);
  }

  lemma StoredBetween(P: Code, h: nat, arg: int, z: nat, c: nat)
    requires z <= h && h + 3 <= c <= |P| && IsSlot(P[h])
    ensures SameButHole(P, StoreOp1(P, JUMP_PAST_ALT, h, arg), z, c, h)
  {
    var S := StoreOp1(P, JUMP_PAST_ALT, h, arg);
    assert S[z..h] == P[z..h] && S[h + 3..c] == P[h + 3..c] && S[h] == JUMP_PAST_ALT;
  }

  // Once the reserved jump leads to the end of the code, the group's code is a block.
  lemma SealClosed(st: CState)
    requires Landing(st) && |st.code| <= MAX_OFFSET
    ensures Closed(Seal(st), StackHoles(st.stack), LowOf(st.stack), |Seal(st)|)
  {
    hide Leads, Levels, Good, Walk, Width, LeadOk;
    TopLevel(st);
    var P, H, K, S := st.code, Holes(st), StackHoles(st.stack), Seal(st);
    var z, n := LowOf(st.stack), |st.code|;
    CutIs(P, H, st.begalt);
    HolesLow(st);
    if st.fixup.None? {
      assert H == K;
      ClosedJoin(P, H, z, st.begalt, n);
    } else {
      var h := st.fixup.value;
      assert S[st.begalt..n] == P[st.begalt..n];
      assert SameHoles(H, st.begalt, n, K, st.begalt);
      ClosedMoved(P, H, st.begalt, n, S, K, st.begalt);
      assert At(S, h, Op1(JUMP_PAST_ALT, n - h - 3));
      JumpAt(S, h, JUMP_PAST_ALT, n - h - 3);
      StoredBetween(P, h, n - h - 3, z, st.begalt);
      ClosedBounds(P, H, z, st.begalt);
      WalkSealed(P, S, z, st.begalt, h, st.begalt);
      ClosedBounds(S, K, st.begalt, n);
      WalkThrough(S, z, st.begalt, n);
      SealedLead(S, K, h, z, n);
      SealedLeads(P, H, S, K, z, st.begalt, h, n);
      LeadsWiden(S, K, st.begalt, n, z, n);
      LeadsJoin(S, K, z, st.begalt, n, z, n);
    }
  }

  lemma SealedLead(S: Code, K: set<nat>, h: nat, z: nat, x: nat)
    requires h + 3 <= |S| && S[h] == JUMP_PAST_ALT && Target(S, h) == x && z <= x && Walk(S, z, x)
    ensures forall hi: nat | x <= hi :: LeadOk(S, K, h, z, hi)
  {
  }

  // Sealed too early, at a parenthesis that closes nothing, the slot stays reserved.
  lemma SealedCut(st: CState, S: Code, c: nat)
    requires Landing(st) && st.stack == [] && st.fixup.Some? && S == Seal(st)
    requires st.begalt <= c && Cut(st.code, Holes(st), c)
    ensures Cut(S, Holes(st), c) && |S| == |st.code|
  {
    hide Leads, Levels, Good, Walk, Width, LeadOk;
    TopLevel(st);
    var P, H := st.code, Holes(st);
    var h, n := st.fixup.value, |st.code|;
    CutIs(P, H, c);
    CutIs(S, H, c);
    CutBounds(P, H, c);
    Middle(P, H, st.begalt, c);
    HolesLow(st);
    assert S[st.begalt..n] == P[st.begalt..n];
    SameSlice(P, st.begalt, n, S, st.begalt, st.begalt, c);
    SameSlice(P, st.begalt, n, S, st.begalt, c, n);
    assert SameHoles(H, st.begalt, c, H, st.begalt) && SameHoles(H, c, n, H, c);
    ClosedMoved(P, H, st.begalt, c, S, H, st.begalt);
    ClosedMoved(P, H, c, n, S, H, c);
    SlotAt(st, S);
    ClosedBounds(P, H, 0, st.begalt);
    SealedLeads(P, H, S, H, 0, st.begalt, h, st.begalt);
    ClosedJoin(S, H, 0, st.begalt, c);
  }

  lemma SlotAt(st: CState, S: Code)
    requires Good(st) && st.fixup.Some? && S == Seal(st) && st.begalt <= |st.code|
    requires HoleOk(st.code, 0, st.fixup, st.begalt)
    ensures SameButHole(st.code, S, 0, st.begalt, st.fixup.value)
    ensures LeadOk(S, Holes(st), st.fixup.value, 0, st.begalt) && S[..st.fixup.value] == st.code[..st.fixup.value]
  {
  }

  // An unmatched `)' after alternatives: sealed, and a dummy push.
  lemma SealedLands(st: CState)
    requires Landing(st) && st.stack == []
    ensures Landing(st.(code := if st.fixup.Some? then Seal(st) + [PUSH_DUMMY_FAILURE] else st.code))
  {
    if st.fixup.Some? {
      LandingParts(st);
      hide Cut, Leads, Good, Seal, Closed, Levels, Holes, StackHoles;
      var S := Seal(st);
      var st1 := st.(code := S);
      TopLevel(st);
      SealedCut(st, S, st.begalt);
      if st.laststart.Some? {
        SealedGood(st);
        SealedCut(st, S, st.laststart.value);
      }
      if st.pending.Some? {
        SealedCut(st, S, st.pending.value - 1);
      }
      SealedGood(st);
      SealedLevels(st, S);
      Appended(st1, st1.(code := S + [PUSH_DUMMY_FAILURE]), [PUSH_DUMMY_FAILURE]);
    }
  }

  lemma SealedGood(st: CState)
    requires Good(st) && st.fixup.Some?
    ensures Good(st.(code := Seal(st))) && Good(st.(code := Seal(st) + [PUSH_DUMMY_FAILURE]))
    ensures st.laststart.Some? ==> st.begalt <= st.laststart.value
    ensures forall i | st.begalt <= i < |st.code| :: Seal(st)[i] == st.code[i]
    ensures |Seal(st)| == |st.code|
  {
  }

  lemma SealedLevels(st: CState, S: Code)
    requires Landing(st) && st.stack == [] && st.fixup.Some? && S == Seal(st) && Cut(S, Holes(st), st.begalt)
    ensures Levels(S, Holes(st), [], st.fixup, st.begalt)
  {
    hide Leads, Good, Walk, Width, LeadOk;
    TopLevel(st);
    SlotAt(st, S);
    WalkSealed(st.code, S, 0, st.begalt, st.fixup.value, st.fixup.value);
    CutIs(S, Holes(st), st.begalt);
    CutIs(S, Holes(st), 0);
    ClosedNone(S, Holes(st), 0);
    ClosedJoin(S, Holes(st), 0, st.begalt, |S|);
  }

  // ----- groups -----

  lemma HeadClosed(Q: Code, H: set<nat>, n: nat, regnum: nat)
    requires regnum <= MAX_REGNUM && n + 3 == |Q| && Q[n..] == [START_MEMORY, regnum, 0]
    ensures Closed(Q, H, n, |Q|)
  {
    hide Closed;
    var g := [START_MEMORY, regnum, 0];
    assert At(Q, n, g);
    PlainClosed(Q, H, n, g);
  }

  // The level of a group that is opened at the end.
  lemma LevelOpened(Q: Code, H: set<nat>, stack: seq<Frame>, f: Frame)
    requires Levels(Q, H, stack, f.fixup, f.begalt) && f.begalt <= f.laststart && Cut(Q, H, f.laststart) && Cut(Q, H, |Q|)
    requires MemoryOk(Q, f) && f.laststart + HeadLength(f.regnum) == |Q|
    ensures Levels(Q, H, stack + [f], None, |Q|)
  {
    hide Cut, MemoryOk;
    assert (stack + [f])[..|stack|] == stack;
  }

  lemma OpenedHoles(st: CState)
    requires Good(st)
    ensures Holes(Open(st)) == Holes(st)
  {
    hide Good;
    var f := Frame(st.begalt, st.fixup, |st.code|, st.regnum + 1);
    assert (st.stack + [f])[..|st.stack|] == st.stack;
  }

  // What opening a group adds to the code.
  lemma OpenedCode(st: CState)
    requires Good(st)
    ensures
      var n, Q, f := |st.code|, Open(st).code, Frame(st.begalt, st.fixup, |st.code|, st.regnum + 1);
      && n <= |Q| && Q[..n] == st.code && Open(st).stack == st.stack + [f] && st.begalt <= n
      && n + HeadLength(f.regnum) == |Q| && MemoryOk(Q, f)
      && (if f.regnum <= MAX_REGNUM then n + 3 == |Q| && Q[n..] == [START_MEMORY, f.regnum, 0] else n == |Q|)
  {
    hide StackFits;
  }

  lemma OpenLands(st: CState)
    requires Landing(st)
    ensures Landing(Open(st))
  {
    var st' := Open(st);
    hide Cut, Closed, Good, SameHoles, Levels, MemoryOk, Holes, Open, HeadLength;
    var n, Q := |st.code|, st'.code;
    var H, f := Holes(st), Frame(st.begalt, st.fixup, |st.code|, st.regnum + 1);
    OpenedHoles(st);
    OpenedCode(st);
    EndIsCut(st);
    AllSame(H, n);
    if f.regnum <= MAX_REGNUM {
      HeadClosed(Q, H, n, f.regnum);
    } else {
      ClosedNone(Q, H, n);
    }
    assert st.code[..n] == st.code;
    LevelsKept(st.code, H, Q, H, st.stack, st.fixup, st.begalt, n);
    CutKept(st.code, H, Q, H, n, n);
    EndCut(Q, H, n);
    LevelOpened(Q, H, st.stack, f);
    OpenedState(st);
  }

  lemma OpenedState(st: CState)
    requires Good(st)
    ensures Good(Open(st)) && Open(st).fixup == None && Open(st).begalt == |Open(st).code|
    ensures Open(st).laststart == None && Open(st).pending == None
  {
    hide Good;
  }

  lemma CloseLands(st: CState, next: byte)
    requires Landing(st) && |Close(st, next).code| <= MAX_OFFSET
    ensures Landing(Close(st, next))
  {
    if st.stack == [] {
      hide Levels, Cut, Literal;
      SealedLands(st);
      LiteralLands(st.(code := if st.fixup.Some? then Seal(st) + [PUSH_DUMMY_FAILURE] else st.code), ')' as int, next);
    } else {
      GroupLands(st, next);
    }
  }

  // The code of the innermost group before its stop_memory.
  lemma ContentClosed(st: CState, code: Code)
    requires Landing(st) && |st.code| <= MAX_OFFSET
    requires code == if st.fixup.Some? then Seal(st) + [PUSH_DUMMY_FAILURE] else st.code
    ensures LowOf(st.stack) <= |code| && Closed(code, StackHoles(st.stack), LowOf(st.stack), |code|)
  {
    hide Closed, Cut, Levels, Good;
    var K, z, S := StackHoles(st.stack), LowOf(st.stack), Seal(st);
    TopLevel(st);
    SealClosed(st);
    if st.fixup.Some? {
      var n := |S|;
      HolesLow(st);
      assert SameHoles(K, z, n, K, z);
      assert code[z..n] == S[z..n];
      ClosedMoved(S, K, z, n, code, K, z);
      assert At(code, n, [PUSH_DUMMY_FAILURE]);
      PlainClosed(code, K, n, [PUSH_DUMMY_FAILURE]);
      ClosedJoin(code, K, z, n, |code|);
    } else {
      assert S == code;
    }
  }

  // A group is closed: its number goes into its start_memory, and a stop_memory after it.
  lemma GroupClosed(code: Code, Q: Code, K: set<nat>, l: nat, regnum: nat, inner: byte)
    requires regnum <= MAX_REGNUM && l + 3 <= |code| && code[l] == START_MEMORY && Closed(code, K, l + 3, |code|)
    requires Q == code[l + 2 := inner] + [STOP_MEMORY, regnum, inner]
    ensures Closed(Q, K, l, |Q|)
  {
    hide Closed;
    var n := |code|;
    var g, e := [START_MEMORY, code[l + 1], inner], [STOP_MEMORY, regnum, inner];
    assert At(Q, l, g) && At(Q, n, e);
    PlainClosed(Q, K, l, g);
    PlainClosed(Q, K, n, e);
    assert Q[l + 3..n] == code[l + 3..n];
    assert SameHoles(K, l + 3, n, K, l + 3);
    ClosedMoved(code, K, l + 3, n, Q, K, l + 3);
    ClosedJoin(Q, K, l, l + 3, n);
    ClosedJoin(Q, K, l, n, |Q|);
  }

  lemma GroupLands(st: CState, next: byte)
    requires Landing(st) && st.stack != [] && |Close(st, next).code| <= MAX_OFFSET
    ensures Landing(Close(st, next))
  {
    hide Seal, Good, StoreOp1, Closed;
    var f, rest := st.stack[|st.stack| - 1], st.stack[..|st.stack| - 1];
    var st' := Close(st, next);
    hide Cut, Closed, HoleOk, StackFits, SameHoles, Seal;
    var code := if st.fixup.Some? then Seal(st) + [PUSH_DUMMY_FAILURE] else st.code;
    var H, K, l, z := Holes(st), StackHoles(st.stack), f.laststart, LowOf(st.stack);
    ContentClosed(st, code);
    TopLevel(st);
    SealBelow(st, z);
    if f.regnum <= MAX_REGNUM {
      SameFront(code, st.code, z, l);
      GroupClosed(code, st'.code, K, l, f.regnum, (st.regnum - f.regnum) % 256);
    }
    ClosedFront(code, st'.code, st.code, z, l, f.regnum, (st.regnum - f.regnum) % 256);
    assert Holes(st') == K;
    HolesBelow(st, l);
    LevelsKept(st.code, H, st'.code, K, rest, f.fixup, f.begalt, l);
    CutKept(st.code, H, st'.code, K, l, l);
  }

  lemma SameFront(code: Code, before: Code, z: nat, l: nat)
    requires l < z <= |code| && z <= |before| && code[..z] == before[..z]
    ensures code[l] == before[l]
  {
    assert code[l] == code[..z][l] == before[..z][l];
  }

  // Closing a group changes nothing before it.
  lemma ClosedFront(code: Code, Q: Code, before: Code, z: nat, l: nat, regnum: nat, inner: byte)
    requires l <= z <= |code| && z <= |before| && code[..z] == before[..z]
    requires
      if regnum <= MAX_REGNUM then l + 2 < |code| && Q == code[l + 2 := inner] + [STOP_MEMORY, regnum, inner] else Q == code
    ensures l <= |Q| && Q[..l] == before[..l]
  {
    assert code[..l] == code[..z][..l] == before[..z][..l] == before[..l];
  }

  lemma SealBelow(st: CState, z: nat)
    requires Good(st) && z <= |st.code| && (st.fixup.Some? ==> z <= st.fixup.value)
    ensures |Seal(st)| == |st.code| && Seal(st)[..z] == st.code[..z]
  {
  }

  lemma HolesBelow(st: CState, l: nat)
    requires st.fixup.Some? ==> l <= st.fixup.value
    ensures SameHoles(Holes(st), 0, l, StackHoles(st.stack), 0)
  {
    forall a: nat | 0 <= a < l
      ensures a in Holes(st) <==> 0 + (a - 0) in StackHoles(st.stack)
    {
    }
  }

  // ----- alternatives -----

  lemma AlternativeLands(st: CState)
    requires Landing(st) && |Alternative(st).code| <= MAX_OFFSET
    ensures Landing(Alternative(st))
  {
    var st' := Alternative(st);
    hide Cut, Closed, Op1, InsertOp1, StoreOp1, StackFits, SameHoles, Walk, Leads, Good, PendingOk;
    TopLevel(st);
    AlternativeIs(st);
    var Q, H, K, z, n := st'.code, Holes(st), Holes(st'), LowOf(st.stack), |st.code|;
    AlternativeClosed(st, Q, K);
    FewerHoles(st, z, n + 3);
    AlternativeBelow(st, z);
    CutKept(st.code, H, Q, K, z, z);
    EndCut(Q, K, z);
    if st.stack != [] {
      var f := st.stack[|st.stack| - 1];
      CutKept(st.code, H, Q, K, f.laststart, z);
      MemoryKept(st.code, Q, f, z);
      LevelsKept(st.code, H, Q, K, st.stack[..|st.stack| - 1], f.fixup, f.begalt, z);
    }
    NothingPending(st');
  }

  lemma NothingPending(st: CState)
    requires Good(st) && st.pending.None?
    ensures PendingOk(st)
  {
  }

  lemma FewerHoles(st: CState, z: nat, h: nat)
    requires (st.fixup.Some? ==> z <= st.fixup.value) && z <= h
    ensures SameHoles(Holes(st), 0, z, StackHoles(st.stack) + {h}, 0)
  {
    forall a: nat | 0 <= a < z
      ensures a in Holes(st) <==> 0 + (a - 0) in StackHoles(st.stack) + {h}
    {
    }
  }

  // The code after `|': the group's earlier alternatives sealed, a failure jump past the slot
  // reserved at the end, the last alternative, and the slot.
  lemma AlternativeIs(st: CState)
    requires Good(st)
    ensures
      var st' := Alternative(st);
      var n, b := |st.code|, st.begalt;
      && |st'.code| == n + 6 && st'.fixup == Some(n + 3) && st'.begalt == n + 6
      && At(st'.code, b, Op1(ON_FAILURE_JUMP, n + 3 - b)) && At(st'.code, b + 3, st.code[b..]) && At(st'.code, n + 3, [0, 0, 0])
      && if st.fixup.Some? then
           var h := st.fixup.value;
           && h + 3 <= b && At(st'.code, h, Op1(JUMP_PAST_ALT, n - h))
           && st'.code[..h] == st.code[..h] && st'.code[h + 3..b] == st.code[h + 3..b]
         else st'.code[..b] == st.code[..b]
  {
    hide Op1, StackFits, At;
    var n, b, P := |st.code|, st.begalt, st.code;
    var f := Op1(ON_FAILURE_JUMP, n + 3 - b);
    if st.fixup.Some? {
      PlacesSealed(P, b, f, st.fixup.value, Op1(JUMP_PAST_ALT, n - st.fixup.value));
    } else {
      Places(P[..b], f, P[b..]);
    }
  }

  lemma Places(a: Code, f: Code, c: Code)
    requires |f| == 3
    ensures
      var Q := a + f + c + [0, 0, 0];
      && |Q| == |a| + |c| + 6 && Q[..|a|] == a
      && At(Q, |a|, f) && At(Q, |a| + 3, c) && At(Q, |a| + |c| + 3, [0, 0, 0])
  {
  }

  lemma PlacesSealed(P: Code, b: nat, f: Code, h: nat, j: Code)
    requires h + 3 <= b <= |P| && |f| == 3 == |j|
    ensures
      var c1 := P[..b] + f + P[b..];
      var Q := c1[..h] + j + c1[h + 3..] + [0, 0, 0];
      && |Q| == |P| + 6 && At(Q, b, f) && At(Q, b + 3, P[b..]) && At(Q, |P| + 3, [0, 0, 0])
      && At(Q, h, j) && Q[..h] == P[..h] && Q[h + 3..b] == P[h + 3..b]
  {
    var c1 := P[..b] + f + P[b..];
    var a := P[..h] + j + P[h + 3..b];
    assert c1[..h] + j + c1[h + 3..] == a + f + P[b..];
    Places(a, f, P[b..]);
    var Q := a + f + P[b..] + [0, 0, 0];
    assert Q[..h] == Q[..b][..h] && Q[h..h + 3] == Q[..b][h..h + 3] && Q[h + 3..b] == Q[..b][h + 3..b];
  }

  lemma AlternativeBelow(st: CState, z: nat)
    requires Good(st) && z <= st.begalt && (st.fixup.Some? ==> z <= st.fixup.value)
    ensures z <= |Alternative(st).code| && Alternative(st).code[..z] == st.code[..z]
  {
    AlternativeIs(st);
    hide Alternative, StackFits;
    var Q := Alternative(st).code;
    if st.fixup.Some? {
      var h := st.fixup.value;
      assert Q[..z] == Q[..h][..z] && st.code[..z] == st.code[..h][..z];
    } else {
      assert Q[..z] == Q[..st.begalt][..z] && st.code[..z] == st.code[..st.begalt][..z];
    }
  }

  lemma MovedTo(P: Code, H: set<nat>, b: nat, Q: Code, K: set<nat>, t: nat)
    requires b <= |P| && Closed(P, H, b, |P|) && SameHoles(H, b, |P|, K, t) && At(Q, t, P[b..])
    ensures Closed(Q, K, t, t + (|P| - b))
  {
    hide Leads;
    assert P[b..|P|] == P[b..];
    ClosedMoved(P, H, b, |P|, Q, K, t);
  }

  // The failure jump, the last alternative, and the slot after it.
  lemma LastAlternative(P: Code, H: set<nat>, Q: Code, K: set<nat>, b: nat)
    requires b <= |P| && Closed(P, H, b, |P|) && SameHoles(H, b, |P|, K, b + 3) && |Q| == |P| + 6 <= MAX_OFFSET
    requires At(Q, b, Op1(ON_FAILURE_JUMP, |P| + 3 - b)) && At(Q, b + 3, P[b..]) && At(Q, |P| + 3, [0, 0, 0])
    ensures Closed(Q, K, b, |P| + 6) && Walk(Q, b, |P| + 3)
  {
    hide Leads, Op1, Walk, Width, LeadOk, SameHoles, At;
    var n := |P|;
    MovedTo(P, H, b, Q, K, b + 3);
    PlainClosed(Q, K, n + 3, [0, 0, 0]);
    WalkJump(Q, b, ON_FAILURE_JUMP, n + 3 - b);
    ClosedBounds(Q, K, b + 3, n + 3);
    ClosedBounds(Q, K, n + 3, n + 6);
    WalkThrough(Q, b, b + 3, n + 3);
    WalkThrough(Q, b, n + 3, n + 6);
    JumpLeads(Q, K, b, ON_FAILURE_JUMP, n + 3 - b, b, n + 6);
    LeadsWiden(Q, K, b + 3, n + 3, b, n + 6);
    LeadsWiden(Q, K, n + 3, n + 6, b, n + 6);
    LeadsJoin(Q, K, b, b + 3, n + 3, b, n + 6);
    LeadsJoin(Q, K, b, n + 3, n + 6, b, n + 6);
  }

  // The earlier alternatives, once the jump at h leads to x.
  lemma EarlierSealed(P: Code, H: set<nat>, Q: Code, K: set<nat>, z: nat, b: nat, h: nat, x: nat, hi: nat)
    requires Closed(P, H, z, b) && Walk(P, z, h) && SameButHole(P, Q, z, b, h) && b <= x <= hi && h !in K
    requires forall a: nat | z <= a < b && a != h :: (a in K <==> a in H)
    requires Q[h] == JUMP_PAST_ALT && Target(Q, h) == x && Walk(Q, b, x)
    ensures Leads(Q, K, z, b, z, hi) && Walk(Q, z, b)
  {
    hide Leads, Walk, Width, LeadOk, SameButHole;
    ClosedBounds(P, H, z, b);
    WalkSealed(P, Q, z, b, h, b);
    WalkThrough(Q, z, b, x);
    SlotInside(P, Q, z, b, h);
    SealedLead(Q, K, h, z, x);
    SealedLeads(P, H, Q, K, z, b, h, hi);
  }

  lemma SlotInside(P: Code, Q: Code, z: nat, e: nat, h: nat)
    requires SameButHole(P, Q, z, e, h)
    ensures z <= h && h + 3 <= e <= |P| && e <= |Q|
  {
  }

  lemma SameBlock(P: Code, H: set<nat>, Q: Code, K: set<nat>, z: nat, b: nat, hi: nat)
    requires Closed(P, H, z, b) && b <= |Q| && Q[..b] == P[..b] && SameHoles(H, z, b, K, z) && b <= hi
    ensures Leads(Q, K, z, b, z, hi) && Walk(Q, z, b)
  {
    hide Leads, Walk, Width, LeadOk, SameHoles;
    ClosedBounds(P, H, z, b);
    assert Q[0..b] == P[0..b];
    SameSlice(P, 0, b, Q, 0, z, b);
    ClosedMoved(P, H, z, b, Q, K, z);
    ClosedBounds(Q, K, z, b);
    WalkSelf(Q, z);
    LeadsWiden(Q, K, z, b, z, hi);
  }

  lemma EarlierClosed(st: CState, Q: Code, K: set<nat>)
    requires Landing(st) && Q == Alternative(st).code && K == StackHoles(st.stack) + {|st.code| + 3} && |Q| <= MAX_OFFSET
    requires st.begalt <= |st.code| && Walk(Q, st.begalt, |st.code| + 3)
    ensures Leads(Q, K, LowOf(st.stack), st.begalt, LowOf(st.stack), |st.code| + 6) && Walk(Q, LowOf(st.stack), st.begalt)
  {
    hide Alternative, Leads, Levels, Op1, Walk, Width, LeadOk, StackFits, Closed, Cut, PendingOk, StackHoles;
    AlternativeIs(st);
    TopLevel(st);
    HolesLow(st);
    var P, H, z, n, b := st.code, Holes(st), LowOf(st.stack), |st.code|, st.begalt;
    if st.fixup.None? {
      assert SameHoles(H, z, b, K, z);
      SameBlock(P, H, Q, K, z, b, n + 6);
    } else {
      var h := st.fixup.value;
      JumpAt(Q, h, JUMP_PAST_ALT, n - h);
      assert Q[0..h] == P[0..h];
      SameSlice(P, 0, h, Q, 0, z, h);
      StackHolesBelow(st);
      EarlierSealed(P, H, Q, K, z, b, h, n + 3, n + 6);
    }
  }

  // The holes of the open groups lie below the innermost one.
  lemma StackHolesBelow(st: CState)
    requires Good(st)
    ensures forall h | h in StackHoles(st.stack) :: h + 3 <= LowOf(st.stack)
  {
    if st.stack != [] {
      var f := st.stack[|st.stack| - 1];
      StackHolesLow(st.stack[..|st.stack| - 1], f.begalt, f.regnum);
    }
  }

  lemma AlternativeClosed(st: CState, Q: Code, K: set<nat>)
    requires Landing(st) && Q == Alternative(st).code && K == Holes(Alternative(st)) && |Q| <= MAX_OFFSET
    ensures
      var z, n := LowOf(st.stack), |st.code|;
      Closed(Q, K, z, n + 6) && |Q| == n + 6 && HoleOk(Q, z, Some(n + 3), n + 6)
  {
    AlternativeParts(st, Q, K);
    hide Alternative, Leads, Levels, Op1, Walk, Width, LeadOk, StackFits, Landing, Holes, StackHoles;
    var z, n, b := LowOf(st.stack), |st.code|, st.begalt;
    ClosedBounds(Q, K, b, n + 6);
    LeadsWiden(Q, K, b, n + 6, z, n + 6);
    LeadsJoin(Q, K, z, b, n + 6, z, n + 6);
    WalkThrough(Q, z, b, n + 3);
  }

  lemma AlternativeParts(st: CState, Q: Code, K: set<nat>)
    requires Landing(st) && Q == Alternative(st).code && K == Holes(Alternative(st)) && |Q| <= MAX_OFFSET
    ensures
      var z, n, b := LowOf(st.stack), |st.code|, st.begalt;
      && z <= b <= n && |Q| == n + 6 && Q[n + 3] == NO_OP
      && Closed(Q, K, b, n + 6) && Walk(Q, b, n + 3) && Leads(Q, K, z, b, z, n + 6) && Walk(Q, z, b)
  {
    hide *;
    LandingIsGood(st);
    AlternativeIs(st);
    TopLevel(st);
    AlternativeHoles(st);
    var P, H, n, b := st.code, Holes(st), |st.code|, st.begalt;
    CutIs(P, H, b);
    HolesMoved(st, K);
    LastAlternative(P, H, Q, K, b);
    EarlierClosed(st, Q, K);
    SlotByte(Q, n + 3);
  }

  lemma AlternativeHoles(st: CState)
    requires Good(st)
    ensures Holes(Alternative(st)) == StackHoles(st.stack) + {|st.code| + 3}
  {
  }

  lemma HolesMoved(st: CState, K: set<nat>)
    requires Good(st) && K == StackHoles(st.stack) + {|st.code| + 3}
    ensures SameHoles(Holes(st), st.begalt, |st.code|, K, st.begalt + 3)
  {
    HolesLow(st);
  }

  lemma SlotByte(Q: Code, s: nat)
    requires At(Q, s, [0, 0, 0])
    ensures s + 3 <= |Q| && Q[s] == NO_OP
  {
    assert Q[s..s + 3][0] == 0;
  }

  // ----- the whole compilation -----

  // One turn of the compiler.
  lemma StepLands(pat: Text, p: nat, st: CState)
    requires Landing(st) && p < |pat| && Step(pat, p, st).Ok? && |Step(pat, p, st).value.1.code| <= MAX_OFFSET
    ensures Landing(Step(pat, p, st).value.1)
  {
    hide Landing, ReadBracket, Close, Alternative, Literal, Open, Repeat, AnyChar, Interval, ReadBounds, StackFits, IsOutside;
    var c := pat[p];
    if IsRepChar(c) {
      var ops := RepRun(pat, p);
      if st.laststart.Some? {
        RepeatLands(st, ZeroOk(ops), ManyOk(ops));
      }
    } else if c == '.' as int {
      AnyCharLands(st);
    } else if c == '[' as int {
      BracketLands(pat, p + 1, st);
    } else if c == '(' as int {
      OpenLands(st);
    } else if c == ')' as int {
      CloseLands(st, Peek(pat, p + 1));
    } else if c == '|' as int {
      AlternativeLands(st);
    } else if c == '{' as int {
      var b := ReadBounds(pat, p + 1);
      if b.Some? {
        IntervalLands(st, b.value.1, b.value.2);
      } else {
        LiteralLands(st, '{' as int, Peek(pat, p + 1));
      }
    } else if c == '\\' as int {
      LiteralLands(st, pat[p + 1], Peek(pat, p + 2));
    } else {
      LiteralLands(st, c, Peek(pat, p + 1));
    }
  }

  lemma InitLands()
    ensures Landing(Init())
  {
    ClosedNone([], {}, 0);
  }

  lemma {:induction false} CompileLands(pat: Text, p: nat, st: CState)
    requires Landing(st) && p <= |pat| && CompileFrom(pat, p, st).Ok? && |CompileFrom(pat, p, st).value| <= MAX_OFFSET
    ensures var P := CompileFrom(pat, p, st).value; Closed(P, {}, 0, |P|)
    decreases |pat| - p
  {
    hide Landing, Closed, Step, Seal;
    LandingIsGood(st);
    if p == |pat| {
      SealClosed(st);
    } else {
      var s := Step(pat, p, st);
      StepLands(pat, p, st);
      CompileLands(pat, s.value.0, s.value.1);
    }
  }

  lemma LandingIsGood(st: CState)
    requires Landing(st)
    ensures Good(st)
  {
  }

  // Instructions, all the way; each jump to one of them or to the end; and each number to be
  // set the count of a counted jump, which begins with the same count.
  ghost predicate Landed(P: Code) {
    && Walk(P, 0, |P|)
    && forall a: nat | StartOf(P, 0, |P|, a) ::
         && Width(P, a) > 0
         && (IsJump(P[a]) || Counted(P[a]) ==>
               0 <= Target(P, a) <= |P| && Walk(P, 0, Target(P, a)))
         && (P[a] == SET_NUMBER_AT ==>
               var n := Target(P, a);
               && 3 <= n && n + 2 <= |P| && StartOf(P, 0, |P|, n - 3) && Counted(P[n - 3])
               && P[n] == P[a + 3] && P[n + 1] == P[a + 4])
  }

  // Whatever the pattern, the addresses in its code are right.
  lemma AddressesLand(pat: Text)
    requires Compile(pat).Ok? && |Compile(pat).value| <= MAX_OFFSET
    ensures Landed(Compile(pat).value)
  {
    InitLands();
    CompileLands(pat, 0, Init());
    ClosedLanded(Compile(pat).value);
  }

  lemma ClosedLanded(P: Code)
    requires Closed(P, {}, 0, |P|)
    ensures Landed(P)
  {
    hide Walk;
    forall a: nat | StartOf(P, 0, |P|, a)
      ensures Width(P, a) > 0 && LeadOk(P, {}, a, 0, |P|)
      ensures IsJump(P[a]) ==> Width(P, a) == 3
      ensures Counted(P[a]) || P[a] == SET_NUMBER_AT ==> Width(P, a) == 5
    {
      WalkNext(P, 0, a, |P|);
    }
  }
}
