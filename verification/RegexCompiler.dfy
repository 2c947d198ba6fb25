/**
 The compiler at work on its buffer: bytes are appended, shifted up to make room for a jump,
 and patched in place, and the buffer grows by doubling up to MAX_BUF_SIZE.
 */
module RegexCompiler {
  import opened Wrappers
  import opened Numerals
  import opened RegexBytes
  import opened RegexSyntax
  import opened RegexGen
  import opened RegexCompileSpec

  const INIT_BUF_SIZE := 32
  const MAX_BUF_SIZE := 65536

  // The three bytes reserved for a jump that is not stored yet.
  predicate Reserves(fixup: Option<nat>, i: nat) {
    fixup.Some? && fixup.value <= i < fixup.value + 3
  }

  predicate Reserved(st: CState, i: nat) {
    Reserves(st.fixup, i) || exists f | f in st.stack :: Reserves(f.fixup, i)
  }

  // Reserved bytes lie below the alternative being read.
  lemma {:induction false} StackReservesLow(stack: seq<Frame>, limit: nat, regnum: nat, i: nat)
    requires StackFits(stack, limit, regnum) && exists f | f in stack :: Reserves(f.fixup, i)
    ensures i < limit
    decreases |stack|
  {
    var f :| f in stack && Reserves(f.fixup, i);
    var top := stack[|stack| - 1];
    if f != top {
      assert f in stack[..|stack| - 1];
      StackReservesLow(stack[..|stack| - 1], top.begalt, top.regnum, i);
    }
  }

  lemma ReservedLow(st: CState, i: nat)
    requires Good(st) && Reserved(st, i)
    ensures i < st.begalt
  {
    if !Reserves(st.fixup, i) {
      StackReservesLow(st.stack, st.begalt, st.regnum, i);
    }
  }

  // The buffer holds the code, but for the reserved bytes.
  predicate Holds(buf: seq<byte>, st: CState) {
    |st.code| <= |buf| && forall i: nat | i < |st.code| && !Reserved(st, i) :: buf[i] == st.code[i]
  }

  lemma HoldsAbove(buf: seq<byte>, st: CState, i: nat)
    requires Good(st) && Holds(buf, st) && st.begalt <= i < |st.code|
    ensures i < |buf| && buf[i] == st.code[i]
  {
    if Reserved(st, i) {
      ReservedLow(st, i);
    }
  }

  // ----- what the buffer still holds after a change -----

  predicate SameReserved(st: CState, st': CState) {
    st'.fixup == st.fixup && st'.stack == st.stack
  }

  lemma KeepHolds(buf: seq<byte>, st: CState, st': CState)
    requires Holds(buf, st) && SameReserved(st, st') && st'.code == st.code
    ensures Holds(buf, st')
  {
    forall i: nat | Reserved(st, i)
      ensures Reserved(st', i)
    {
    }
  }

  lemma AppendHolds(buf: seq<byte>, st: CState, buf': seq<byte>, st': CState)
    requires Holds(buf, st) && SameReserved(st, st') && st.code <= st'.code && |st'.code| <= |buf'|
    requires buf'[..|st.code|] == buf[..|st.code|]
    requires buf'[|st.code|..|st'.code|] == st'.code[|st.code|..]
    ensures Holds(buf', st')
  {
    forall i: nat | i < |st'.code| && !Reserved(st', i)
      ensures buf'[i] == st'.code[i]
    {
      if i < |st.code| {
        assert buf'[..|st.code|][i] == buf[..|st.code|][i];
        assert !Reserved(st, i);
      } else {
        assert buf'[|st.code|..|st'.code|][i - |st.code|] == st'.code[|st.code|..][i - |st.code|];
      }
    }
  }

  lemma InsertHolds(buf: seq<byte>, st: CState, buf': seq<byte>, st': CState, loc: nat, g: Code)
    requires Good(st) && Holds(buf, st) && SameReserved(st, st')
    requires st.begalt <= loc <= |st.code| && |st.code| + |g| <= |buf'|
    requires buf'[..|st.code| + |g|] == Inserted(buf[..|st.code|], loc, g)
    requires st'.code == Inserted(st.code, loc, g)
    ensures Holds(buf', st')
  {
    var n := |st.code|;
    forall i: nat | i < n + |g| && !Reserved(st', i)
      ensures buf'[i] == st'.code[i]
    {
      assert buf'[i] == buf'[..n + |g|][i];
      if i < loc {
        assert !Reserved(st, i);
      } else if loc + |g| <= i {
        HoldsAbove(buf, st, i - |g|);
      }
    }
  }

  // The reserved jump after the last alternative is stored.
  lemma StoreHolds(buf: seq<byte>, st: CState, buf': seq<byte>, st': CState, op: byte, arg: int)
    requires Good(st) && Holds(buf, st) && st.fixup.Some? && SameReserved(st, st')
    requires buf' == buf[..st.fixup.value] + Op1(op, arg) + buf[st.fixup.value + 3..]
    requires st'.code == StoreOp1(st.code, op, st.fixup.value, arg)
    ensures Holds(buf', st') && Filled(buf', st')
  {
    forall i: nat | i < |st'.code| && (!Reserved(st', i) || Reserves(st.fixup, i))
      ensures buf'[i] == st'.code[i]
    {
      if !Reserves(st.fixup, i) {
        assert !Reserved(st, i);
      }
    }
  }

  // The bytes reserved by the last alternative are those of the code.
  predicate Filled(buf: seq<byte>, st: CState) {
    |st.code| <= |buf| && forall i: nat | i < |st.code| && Reserves(st.fixup, i) :: buf[i] == st.code[i]
  }

  // Once they are, other bytes may be reserved instead.
  lemma Reserving(buf: seq<byte>, st: CState, buf': seq<byte>, st': CState)
    requires Holds(buf, st) && (Filled(buf, st) || st.fixup.None?)
    requires st'.stack == st.stack && |st'.code| <= |buf'|
    requires st.code <= st'.code && forall i: nat | i < |st.code| :: buf'[i] == buf[i]
    requires forall i: nat | |st.code| <= i < |st'.code| :: Reserves(st'.fixup, i)
    ensures Holds(buf', st')
  {
    forall i: nat | i < |st'.code| && !Reserved(st', i)
      ensures buf'[i] == st'.code[i]
    {
      assert i < |st.code|;
      assert !Reserves(st.fixup, i) ==> !Reserved(st, i);
    }
  }

  // A group's own alternatives reserve nothing before they are read; at its close they are
  // filled in.
  lemma OpenLength(st: CState)
    requires Good(st) && st.regnum + 1 <= MAX_REGNUM
    ensures |Open(st).code| == |st.code| + 3
  {
    hide Good;
  }

  // What opening a group makes of the state, when its start_memory, if any, is there.
  lemma OpenIs(st: CState, st1: CState)
    requires Good(st)
    requires st1 == if st.regnum + 1 <= MAX_REGNUM then st.(code := st.code + [START_MEMORY, st.regnum + 1, 0]) else st
    ensures Open(st) == CState(st1.code, |st1.code|, None, None, None, st.regnum + 1,
                               st.stack + [Frame(st.begalt, st.fixup, |st.code|, st.regnum + 1)])
  {
    hide Good;
    assert st.code + [] == st.code;
  }

  lemma OpenHolds(buf: seq<byte>, st: CState, start: nat, st': CState)
    requires Holds(buf, st) && st'.code == st.code
    requires st'.fixup == None && st'.stack == st.stack + [Frame(st.begalt, st.fixup, start, st.regnum + 1)]
    ensures Holds(buf, st')
  {
    var f := Frame(st.begalt, st.fixup, start, st.regnum + 1);
    forall i: nat | Reserved(st, i)
      ensures Reserved(st', i)
    {
      if Reserves(st.fixup, i) {
        assert f in st'.stack && Reserves(f.fixup, i);
      } else {
        var g :| g in st.stack && Reserves(g.fixup, i);
        assert g in st'.stack;
      }
    }
  }

  lemma CloseHolds(buf: seq<byte>, st: CState, st': CState)
    requires Holds(buf, st) && (Filled(buf, st) || st.fixup.None?)
    requires st'.code == st.code && st.stack != []
    requires st'.stack == st.stack[..|st.stack| - 1] && st'.fixup == st.stack[|st.stack| - 1].fixup
    ensures Holds(buf, st')
  {
    forall i: nat | Reserved(st, i) && !Reserves(st.fixup, i)
      ensures Reserved(st', i)
    {
      var g :| g in st.stack && Reserves(g.fixup, i);
      if g != st.stack[|st.stack| - 1] {
        assert g in st'.stack;
      }
    }
  }

  // ----- the state and the buffer after a change -----

  lemma GoodBounds(st: CState)
    requires Good(st)
    ensures st.begalt <= |st.code| && (st.fixup.Some? ==> st.fixup.value + 3 <= st.begalt)
    ensures st.laststart.Some? ==> st.begalt <= st.laststart.value <= |st.code|
    ensures st.pending.Some? ==>
      && st.begalt <= st.pending.value < |st.code|
      && st.pending.value + 1 + st.code[st.pending.value] <= |st.code|
  {
    hide StackFits;
  }

  // g is added at the end.
  lemma Pushed(buf: seq<byte>, st: CState, buf': seq<byte>, g: Code)
    requires Good(st) && Holds(buf, st) && |st.code| <= |buf| && |st.code| + |g| <= |buf'|
    requires buf'[..|st.code|] == buf[..|st.code|] && buf'[|st.code|..|st.code| + |g|] == g
    ensures Good(st.(code := st.code + g)) && Holds(buf', st.(code := st.code + g))
  {
    hide Reserved, Holds, StackFits;
    var st' := st.(code := st.code + g);
    assert st'.code[|st.code|..] == g;
    AppendHolds(buf, st, buf', st');
  }

  // g is inserted within the alternative being read, and no exactn stays open.
  lemma PutIn(buf: seq<byte>, st: CState, buf': seq<byte>, loc: nat, g: Code)
    requires Good(st) && Holds(buf, st) && st.begalt <= loc <= |st.code| <= |buf| && |st.code| + |g| <= |buf'|
    requires buf'[..|st.code| + |g|] == Inserted(buf[..|st.code|], loc, g)
    ensures
      var st' := st.(code := Inserted(st.code, loc, g), pending := None);
      Good(st') && Holds(buf', st')
  {
    hide Reserved, Holds, StackFits, Inserted;
    var st' := st.(code := Inserted(st.code, loc, g), pending := None);
    InsertHolds(buf, st, buf', st', loc, g);
  }

  lemma ReservingGood(st: CState, st': CState)
    requires Good(st)
    requires st' == CState(st.code + [0, 0, 0], |st.code| + 3, None, Some(|st.code|), None, st.regnum, st.stack)
    ensures Good(st')
  {
    StackFitsMore(st.stack, st.begalt, st.regnum, st'.begalt, st.regnum);
  }

  lemma MovedUp(a: seq<byte>, a': seq<byte>, loc: nat, b: nat, k: nat)
    requires loc <= b && b + k <= |a| == |a'|
    requires forall i | 0 <= i < loc :: a'[i] == a[i]
    requires forall i | loc + k <= i < b + k :: a'[i] == a[i - k]
    ensures a'[..loc] == a[..loc] && a'[loc + k..b + k] == a[loc..b]
  {
  }

  lemma TrimShorter(map8: seq<byte>, map8': seq<byte>)
    requires map8 != [] && map8[|map8| - 1] == 0 && map8' == map8[..|map8| - 1]
    ensures Trim(map8') == Trim(map8)
  {
  }

  lemma Trimmed(map8: seq<byte>)
    requires map8 == [] || map8[|map8| - 1] != 0
    ensures Trim(map8) == map8
  {
  }

  // ----- an exactn -----

  lemma FirstOfExactn(st: CState, c: byte, next: byte)
    requires Good(st) && StartsExactn(st, next)
    ensures
      var n, code := |st.code|, (st.code + [EXACTN, 0]) + [c];
      code[n + 1] == 0 && Literal(st, c, next) == st.(code := code[n + 1 := 1], laststart := Some(n), pending := Some(n + 1))
  {
    hide Good;
  }

  lemma NextOfExactn(st: CState, c: byte, next: byte)
    requires Good(st) && !StartsExactn(st, next)
    ensures st.pending.Some? && st.pending.value < |st.code| && st.code[st.pending.value] < 255
    ensures
      var q, code := st.pending.value, st.code + [c];
      && code[q] == st.code[q] && q + 2 + code[q] <= |code|
      && Literal(st, c, next) == st.(code := code[q := code[q] + 1])
  {
    hide StackFits;
  }

  // One byte is changed in both.
  lemma PokeHolds(buf: seq<byte>, st: CState, buf': seq<byte>, st': CState, q: nat, x: byte)
    requires Holds(buf, st) && SameReserved(st, st') && q < |st.code|
    requires buf' == buf[q := x] && st'.code == st.code[q := x]
    ensures Holds(buf', st')
    ensures Filled(buf, st) ==> Filled(buf', st')
  {
    forall i: nat | i < |st'.code| && !Reserved(st', i)
      ensures buf'[i] == st'.code[i]
    {
      assert !Reserved(st, i);
    }
  }

  class Compiler {
    var buffer: array<byte>         // its length is `allocated'
    var b: nat                      // where the next byte goes
    var begalt: nat
    var laststart: Option<nat>
    var fixupAltJump: Option<nat>
    var pendingExact: Option<nat>
    var regnum: nat
    var compileStack: seq<Frame>
    ghost var code: Code            // the bytes below b, with 0 in the reserved ones

    ghost function State(): CState
      reads this
    {
      CState(code, begalt, laststart, fixupAltJump, pendingExact, regnum, compileStack)
    }

    ghost predicate Valid()
      reads this, buffer
    {
      && 0 < buffer.Length <= MAX_BUF_SIZE
      && |code| == b && Good(State()) && Holds(buffer[..], State())
    }

    constructor ()
      ensures Valid() && fresh(buffer) && State() == Init()
    {
      buffer := new byte[INIT_BUF_SIZE];
      b, begalt, laststart, fixupAltJump, pendingExact := 0, 0, None, None, None;
      regnum, compileStack := 0, [];
      code := [];
    }

    // EXTEND_BUFFER: twice the size, up to the maximum, with the same contents.
    method ExtendBuffer()
      requires Valid() && buffer.Length < MAX_BUF_SIZE
      modifies this`buffer
      ensures Valid() && State() == old(State()) && fresh(buffer)
      ensures old(buffer.Length) < buffer.Length && buffer[..old(buffer.Length)] == old(buffer[..])
      ensures old(Filled(buffer[..], State())) ==> Filled(buffer[..], State())
    {
      var newSize := 2 * buffer.Length;
      if newSize > MAX_BUF_SIZE {
        newSize := MAX_BUF_SIZE;
      }
      var larger := new byte[newSize];
      forall i | 0 <= i < buffer.Length {
        larger[i] := buffer[i];
      }
      assert larger[..buffer.Length] == buffer[..];
      buffer := larger;
    }

    // GET_BUFFER_SPACE
    method GetBufferSpace(n: nat) returns (ok: bool)
      requires Valid()
      modifies this`buffer
      ensures Valid() && State() == old(State()) && (buffer == old(buffer) || fresh(buffer))
      ensures old(Filled(buffer[..], State())) ==> Filled(buffer[..], State())
      ensures ok <==> b + n <= MAX_BUF_SIZE
      ensures ok ==> b + n <= buffer.Length
    {
      ok := true;
      while b + n > buffer.Length
        invariant Valid() && (buffer == old(buffer) || fresh(buffer))
        invariant old(Filled(buffer[..], State())) ==> Filled(buffer[..], State())
        decreases MAX_BUF_SIZE - buffer.Length
      {
        if buffer.Length == MAX_BUF_SIZE {
          return false;
        }
        ExtendBuffer();
      }
    }

    // store_op1
    method StoreOp(op: byte, loc: nat, arg: int)
      requires loc + 3 <= buffer.Length
      modifies buffer
      ensures buffer[..] == old(buffer[..loc]) + Op1(op, arg) + old(buffer[loc + 3..])
    {
      buffer[loc] := op;
      buffer[loc + 1] := Low(arg);
      buffer[loc + 2] := High(arg);
    }

    // The loop of insert_op1 and insert_op2: the bytes from loc to b move up, the last one first.
    method MoveUp(loc: nat, k: nat)
      requires loc <= b && b + k <= buffer.Length
      modifies buffer
      ensures buffer[..loc] == old(buffer[..loc]) && buffer[loc + k..b + k] == old(buffer[loc..b])
    {
      var pfrom, pto := b, b + k;
      ghost var a := buffer[..];
      while pfrom != loc
        invariant loc <= pfrom <= b && pto == pfrom + k
        invariant forall i | 0 <= i < pfrom :: buffer[i] == a[i]
        invariant forall i | pto <= i < b + k :: buffer[i] == a[i - k]
      {
        pto := pto - 1;
        pfrom := pfrom - 1;
        buffer[pto] := buffer[pfrom];
      }
      MovedUp(a, buffer[..], loc, b, k);
    }

    // insert_op1
    method InsertOp(op: byte, loc: nat, arg: int)
      requires loc <= b && b + 3 <= buffer.Length
      modifies buffer
      ensures buffer[..b + 3] == InsertOp1(old(buffer[..b]), op, loc, arg)
    {
      MoveUp(loc, 3);
      StoreOp(op, loc, arg);
      assert buffer[..b + 3] == old(buffer[..loc]) + Op1(op, arg) + old(buffer[loc..b]);
    }

    // BUF_PUSH, BUF_PUSH_2, BUF_PUSH_3, and storing a jump at the end of the code.
    method Push(g: Code) returns (ok: bool)
      requires Valid()
      modifies this`buffer, this`b, this`code, buffer
      ensures Valid() && (buffer == old(buffer) || fresh(buffer))
      ensures ok <==> old(b) + |g| <= MAX_BUF_SIZE
      ensures State() == if ok then old(State()).(code := old(code) + g) else old(State())
    {
      hide Good, Holds;
      ghost var st := State();
      ok := GetBufferSpace(|g|);
      if !ok {
        return;
      }
      ghost var buf := buffer[..];
      CopyTo(buffer, b, g);
      Pushed(buf, st, buffer[..], g);
      code := code + g;
      b := b + |g|;
    }

    static method CopyTo(a: array<byte>, n: nat, g: Code)
      requires n + |g| <= a.Length
      modifies a
      ensures a[..n] == old(a[..n]) && a[n..n + |g|] == g
    {
      for k := 0 to |g|
        invariant a[..n] == old(a[..n]) && a[n..n + k] == g[..k]
      {
        a[n + k] := g[k];
      }
    }

    // INSERT_JUMP, which leaves no exactn open.
    method InsertJump(op: byte, loc: nat, arg: int) returns (ok: bool)
      requires Valid() && begalt <= loc <= b
      modifies this`buffer, this`b, this`code, this`pendingExact, buffer
      ensures Valid() && (buffer == old(buffer) || fresh(buffer))
      ensures ok <==> old(b) + 3 <= MAX_BUF_SIZE
      ensures State() == if ok then old(State()).(code := InsertOp1(old(code), op, loc, arg), pending := None) else old(State())
    {
      hide Good, Holds, Op1;
      ghost var st := State();
      ok := GetBufferSpace(3);
      if !ok {
        return;
      }
      ghost var buf := buffer[..];
      InsertOp(op, loc, arg);
      PutIn(buf, st, buffer[..], loc, Op1(op, arg));
      pendingExact := None;
      b := b + 3;
      code := InsertOp1(code, op, loc, arg);
    }

    // store_op2
    method StoreTwo(op: byte, loc: nat, arg1: int, arg2: int)
      requires loc + 5 <= buffer.Length
      modifies buffer
      ensures buffer[..] == old(buffer[..loc]) + Op2(op, arg1, arg2) + old(buffer[loc + 5..])
    {
      StoreOp(op, loc, arg1);
      buffer[loc + 3] := Low(arg2);
      buffer[loc + 4] := High(arg2);
    }

    // insert_op2
    method InsertTwo(op: byte, loc: nat, arg1: int, arg2: int)
      requires loc <= b && b + 5 <= buffer.Length
      modifies buffer
      ensures buffer[..b + 5] == Inserted(old(buffer[..b]), loc, Op2(op, arg1, arg2))
    {
      MoveUp(loc, 5);
      StoreTwo(op, loc, arg1, arg2);
      assert buffer[..b + 5] == old(buffer[..loc]) + Op2(op, arg1, arg2) + old(buffer[loc..b]);
    }

    // INSERT_JUMP2, and the set_number_at before it, which leave no exactn open.
    method InsertCounted(op: byte, loc: nat, arg1: int, arg2: int)
      requires Valid() && begalt <= loc <= b && b + 5 <= buffer.Length
      modifies this`b, this`code, this`pendingExact, buffer
      ensures Valid()
      ensures State() == old(State()).(code := Inserted(old(code), loc, Op2(op, arg1, arg2)), pending := None)
    {
      hide Good, Holds, Op2, Inserted;
      ghost var st := State();
      ghost var buf := buffer[..];
      InsertTwo(op, loc, arg1, arg2);
      PutIn(buf, st, buffer[..], loc, Op2(op, arg1, arg2));
      pendingExact := None;
      b := b + 5;
      code := Inserted(code, loc, Op2(op, arg1, arg2));
    }

    // store_op2 at the end of the code
    method AppendTwo(op: byte, arg1: int, arg2: int)
      requires Valid() && b + 5 <= buffer.Length
      modifies this`b, this`code, buffer
      ensures Valid() && State() == old(State()).(code := old(code) + Op2(op, arg1, arg2))
    {
      hide Good, Holds, Op2;
      ghost var st := State();
      ghost var buf := buffer[..];
      StoreTwo(op, b, arg1, arg2);
      assert buffer[..|st.code|] == buf[..|st.code|] && buffer[|st.code|..|st.code| + 5] == Op2(op, arg1, arg2);
      Pushed(buf, st, buffer[..], Op2(op, arg1, arg2));
      code := code + Op2(op, arg1, arg2);
      b := b + 5;
    }

    // An interval after an operand
    method AddInterval(lower: nat, upper: nat) returns (ok: bool)
      requires Valid()
      modifies this, buffer
      ensures Valid() && (buffer == old(buffer) || fresh(buffer))
      ensures ok ==> State() == Interval(old(State()), lower, upper)
      ensures !ok ==> |Interval(old(State()), lower, upper).code| > MAX_BUF_SIZE
    {
      hide StackFits, Reserved, Holds, Op1, Op2;
      ghost var st := State();
      if laststart.None? {
        laststart := Some(b);
        KeepHolds(buffer[..], st, State());
      }
      if upper == 0 {
        ok := InsertJump(JUMP, laststart.value, b + 3 - laststart.value - 3);
      } else {
        ok := GetBufferSpace(10 + if upper > 1 then 10 else 0);
        if ok {
          Surround(laststart.value, lower, upper);
        }
      }
    }

    // A nontrivial interval around the operand at l; there is room for it.
    method Surround(l: nat, lower: nat, upper: nat)
      requires Valid() && laststart == Some(l) && upper > 0
      requires b + 10 + (if upper > 1 then 10 else 0) <= buffer.Length
      modifies this`b, this`code, this`pendingExact, buffer
      ensures Valid() && State() == Interval(old(State()), lower, upper)
    {
      hide StackFits, Reserved, Holds, Op1, Op2, Inserted;
      var more := if upper > 1 then 5 else 0;
      InsertCounted(SUCCEED_N, l, b + 5 + more - l - 3, lower);
      InsertCounted(SET_NUMBER_AT, l, 5, lower);
      if upper > 1 {
        AppendTwo(JUMP_N, l + 5 - b - 3, upper - 1);
        InsertCounted(SET_NUMBER_AT, l, b - l, upper - 1);
      }
    }

    // Stores the jump reserved after the last alternative.
    method StoreReserved(arg: int)
      requires Valid() && fixupAltJump.Some?
      modifies this`code, buffer
      ensures Valid() && Filled(buffer[..], State())
      ensures State() == old(State()).(code := StoreOp1(old(code), JUMP_PAST_ALT, fixupAltJump.value, arg))
    {
      ghost var st := State();
      ghost var buf := buffer[..];
      StoreOp(JUMP_PAST_ALT, fixupAltJump.value, arg);
      code := StoreOp1(code, JUMP_PAST_ALT, fixupAltJump.value, arg);
      StoreGood(st, JUMP_PAST_ALT, arg);
      StoreHolds(buf, st, buffer[..], State(), JUMP_PAST_ALT, arg);
    }

    // normal_char
    method AddLiteral(c: byte, next: byte) returns (ok: bool)
      requires Valid()
      modifies this, buffer
      ensures Valid() && (buffer == old(buffer) || fresh(buffer))
      ensures ok ==> State() == Literal(old(State()), c, next)
      ensures !ok ==> |Literal(old(State()), c, next).code| > MAX_BUF_SIZE
    {
      hide Good, Holds, Literal, IsRepChar;
      ghost var st := State();
      GoodBounds(st);
      if pendingExact.Some? {
        HoldsAbove(buffer[..], State(), pendingExact.value);
      }
      if || pendingExact.None?
         || pendingExact.value + buffer[pendingExact.value] + 1 != b
         || buffer[pendingExact.value] == 255
         || IsRepChar(next) || next == '^' as int || next == '{' as int
      {
        FirstOfExactn(st, c, next);
        ok := NewExactn();
        if !ok {
          return;
        }
      } else {
        NextOfExactn(st, c, next);
      }
      ok := Push([c]);
      if ok {
        CountOneMore();
      }
    }

    method NewExactn() returns (ok: bool)
      requires Valid()
      modifies this, buffer
      ensures Valid() && (buffer == old(buffer) || fresh(buffer))
      ensures ok <==> old(b) + 2 <= MAX_BUF_SIZE
      ensures ok ==> State() == old(State()).(code := old(code) + [EXACTN, 0],
                                              laststart := Some(old(b)), pending := Some(old(b) + 1))
    {
      hide StackFits, Reserved;
      var start := b;
      ok := Push([EXACTN, 0]);
      if ok {
        ghost var st := State();
        laststart, pendingExact := Some(start), Some(b - 1);
        KeepHolds(buffer[..], st, State());
      }
    }

    // (*pending_exact)++
    method CountOneMore()
      requires Valid() && pendingExact.Some?
      requires code[pendingExact.value] < 255 && pendingExact.value + 2 + code[pendingExact.value] <= b
      modifies this`code, buffer
      ensures Valid()
      ensures State() == old(State()).(code := old(code)[pendingExact.value := old(code)[pendingExact.value] + 1])
    {
      ghost var st := State();
      ghost var buf := buffer[..];
      var q := pendingExact.value;
      HoldsAbove(buf, st, q);
      buffer[q] := buffer[q] + 1;
      code := code[q := code[q] + 1];
      PokeHolds(buf, st, buffer[..], State(), q, code[q]);
    }

    // `*', `+', `?' after an operand
    method AddRepeat(zeroOk: bool, manyOk: bool) returns (ok: bool)
      requires Valid() && laststart.Some?
      modifies this, buffer
      ensures Valid() && (buffer == old(buffer) || fresh(buffer))
      ensures ok ==> State() == Repeat(old(State()), zeroOk, manyOk)
      ensures !ok ==> |Repeat(old(State()), zeroOk, manyOk).code| > MAX_BUF_SIZE
    {
      hide Good, Holds, Op1, InsertOp1;
      GoodBounds(State());
      var l := laststart.value;
      ok := true;
      if manyOk {
        ok := Push(Op1(MAYBE_POP_JUMP, l - 3 - b - 3));
      }
      if ok {
        ok := InsertJump(ON_FAILURE_JUMP, l, b + 3 - l - 3);
      }
      if ok && !zeroOk {
        ok := InsertJump(DUMMY_FAILURE_JUMP, l, l + 6 - l - 3);
      }
    }

    // `.'
    method AddAnyChar() returns (ok: bool)
      requires Valid()
      modifies this, buffer
      ensures Valid() && (buffer == old(buffer) || fresh(buffer))
      ensures ok ==> State() == AnyChar(old(State()))
      ensures !ok ==> |AnyChar(old(State())).code| > MAX_BUF_SIZE
    {
      hide StackFits, Holds;
      var start := b;
      ok := Push([ANYCHAR]);
      if ok {
        ghost var st := State();
        laststart := Some(start);
        KeepHolds(buffer[..], st, State());
      }
    }

    // handle_open
    method OpenGroup() returns (ok: bool)
      requires Valid()
      modifies this, buffer
      ensures Valid() && (buffer == old(buffer) || fresh(buffer))
      ensures ok ==> State() == Open(old(State()))
      ensures !ok ==> |Open(old(State())).code| > MAX_BUF_SIZE
    {
      hide Good, Holds, Open;
      ghost var st := State();
      var start := b;
      ok := true;
      if regnum + 1 <= MAX_REGNUM {
        ok := Push([START_MEMORY, regnum + 1, 0]);
        if !ok {
          OpenLength(st);
          return;
        }
      }
      ghost var st1 := State();
      OpenIs(st, st1);
      regnum := regnum + 1;
      compileStack := compileStack + [Frame(begalt, fixupAltJump, start, regnum)];
      fixupAltJump, laststart, begalt, pendingExact := None, None, b, None;
      OpenHolds(buffer[..], st1, start, State());
    }

    // handle_alt
    method AddAlternative() returns (ok: bool)
      requires Valid()
      modifies this, buffer
      ensures Valid() && (buffer == old(buffer) || fresh(buffer))
      ensures ok ==> State() == Alternative(old(State()))
      ensures !ok ==> |Alternative(old(State())).code| > MAX_BUF_SIZE
    {
      hide Good, Op1, Holds, Filled, InsertOp1, StoreOp1;
      GoodBounds(State());
      ok := InsertJump(ON_FAILURE_JUMP, begalt, b + 6 - begalt - 3);
      if !ok {
        return;
      }
      if fixupAltJump.Some? {
        StoreReserved(b - fixupAltJump.value - 3);
      }
      ok := ReserveJump();
    }

    // Three bytes for a jump to be stored later; the next alternative begins after them.
    method ReserveJump() returns (ok: bool)
      requires Valid() && pendingExact.None? && (fixupAltJump.None? || Filled(buffer[..], State()))
      modifies this, buffer
      ensures Valid() && (buffer == old(buffer) || fresh(buffer))
      ensures ok <==> old(b) + 3 <= MAX_BUF_SIZE
      ensures ok ==>
        var st := old(State());
        State() == CState(st.code + [0, 0, 0], |st.code| + 3, None, Some(|st.code|), None, st.regnum, st.stack)
    {
      hide Good, Holds, Filled;
      ok := GetBufferSpace(3);
      if !ok {
        return;
      }
      ghost var st := State();
      fixupAltJump := Some(b);
      b := b + 3;
      code := code + [0, 0, 0];
      laststart, begalt := None, b;
      ReservingGood(st, State());
      Reserving(buffer[..], st, buffer[..], State());
    }

    // handle_close
    method CloseGroup(next: byte) returns (ok: bool)
      requires Valid()
      modifies this, buffer
      ensures Valid() && (buffer == old(buffer) || fresh(buffer))
      ensures ok ==> State() == Close(old(State()), next)
      ensures !ok ==> |Close(old(State()), next).code| > MAX_BUF_SIZE
    {
      hide Good, Holds, Literal, Filled, Seal;
      ghost var st := State();
      GoodBounds(st);
      if compileStack != [] {
        TopFits(st);
      }
      ok := EndAlternatives();
      if ok && compileStack == [] {
        ok := AddLiteral(')' as int, next);
      } else if ok {
        ok := PopGroup();
      }
    }

    // The end of the last of several alternatives: the reserved jump leads past a dummy push.
    method EndAlternatives() returns (ok: bool)
      requires Valid()
      modifies this`buffer, this`b, this`code, buffer
      ensures Valid() && (buffer == old(buffer) || fresh(buffer))
      ensures ok ==> fixupAltJump.None? || Filled(buffer[..], State())
      ensures ok ==>
        var st := old(State());
        && Good(st) && State() == st.(code := if st.fixup.Some? then Seal(st) + [PUSH_DUMMY_FAILURE] else st.code)
      ensures !ok ==> fixupAltJump.Some? && old(b) + 1 > MAX_BUF_SIZE
    {
      hide StackFits, Reserved, Op1, Holds;
      ghost var st := State();
      ok := true;
      if fixupAltJump.Some? {
        ok := Push([PUSH_DUMMY_FAILURE]);
        if !ok {
          return;
        }
        StoreReserved(b - 1 - fixupAltJump.value - 3);
        StoreBefore(st.code, [PUSH_DUMMY_FAILURE], JUMP_PAST_ALT, fixupAltJump.value, b - 1 - fixupAltJump.value - 3);
      }
    }

    // The frame of the group is popped, its inner groups are counted, and its end is added.
    method PopGroup() returns (ok: bool)
      requires Valid() && compileStack != [] && (Filled(buffer[..], State()) || fixupAltJump.None?)
      modifies this, buffer
      ensures Valid() && (buffer == old(buffer) || fresh(buffer))
      ensures
        var st := old(State());
        var f := st.stack[|st.stack| - 1];
        var inner: byte := (st.regnum - f.regnum) % 256;
        && old(Good(State())) && f.regnum <= st.regnum
        && if ok then
          State() == CState(
            if f.regnum <= MAX_REGNUM && f.laststart + 2 < |st.code|
            then st.code[f.laststart + 2 := inner] + [STOP_MEMORY, f.regnum, inner] else st.code,
            f.begalt, Some(f.laststart), f.fixup, None, st.regnum, st.stack[..|st.stack| - 1])
        else f.regnum <= MAX_REGNUM && |st.code| + 3 > MAX_BUF_SIZE
    {
      hide Reserved;
      ghost var st := State();
      var f := compileStack[|compileStack| - 1];
      StackFitsMore(st.stack[..|st.stack| - 1], f.begalt, f.regnum, f.begalt, st.regnum);
      compileStack := compileStack[..|compileStack| - 1];
      begalt, fixupAltJump, laststart, pendingExact := f.begalt, f.fixup, Some(f.laststart), None;
      CloseHolds(buffer[..], st, State());
      ok := true;
      if f.regnum <= MAX_REGNUM {
        var inner: byte := (regnum - f.regnum) % 256;
        Poke(f.laststart + 2, inner);
        ok := Push([STOP_MEMORY, f.regnum, inner]);
      }
    }

    // One byte of the code is overwritten.
    method Poke(q: nat, x: byte)
      requires Valid() && q < b && pendingExact.None?
      modifies this`code, buffer
      ensures Valid() && State() == old(State()).(code := old(code)[q := x])
    {
      ghost var st := State();
      ghost var buf := buffer[..];
      buffer[q] := x;
      code := code[q := x];
      PokeHolds(buf, st, buffer[..], State(), q, x);
    }

    // SET_LIST_BIT, in the 32 bytes from q on.
    method SetBit(q: nat, c: byte)
      requires q + 32 <= buffer.Length
      modifies buffer
      ensures buffer[q..q + 32] == SetListBit(old(buffer[q..q + 32]), c)
      ensures buffer[..q] == old(buffer[..q]) && buffer[q + 32..] == old(buffer[q + 32..])
    {
      ghost var map8 := buffer[q..q + 32];
      assert Pow2(8) == 256;
      WithBitFits(buffer[q + c / 8], c % 8, 8);
      buffer[q + c / 8] := WithBit(buffer[q + c / 8], c % 8);
      assert buffer[q..q + 32] == map8[c / 8 := WithBit(map8[c / 8], c % 8)];
    }

    // compile_range: every bit between the two ends.
    method SetBits(q: nat, lo: byte, hi: byte)
      requires q + 32 <= buffer.Length && lo <= hi
      modifies buffer
      ensures buffer[q..q + 32] == SetRange(old(buffer[q..q + 32]), lo, hi)
      ensures buffer[..q] == old(buffer[..q]) && buffer[q + 32..] == old(buffer[q + 32..])
    {
      ghost var map8 := buffer[q..q + 32];
      var c: int := lo;
      while c <= hi
        invariant lo <= c <= hi + 1
        invariant buffer[..q] == old(buffer[..q]) && buffer[q + 32..] == old(buffer[q + 32..])
        invariant SetRange(map8, lo, hi)
               == if c <= hi then SetRange(buffer[q..q + 32], c, hi) else buffer[q..q + 32]
      {
        SetBit(q, c);
        c := c + 1;
      }
    }

    // The loop over the characters and ranges of a bracket expression; the map is at q.
    method SetItems(pat: Text, first: nat, q: nat) returns (r: Result<nat>)
      requires 1 <= first && q + 32 <= buffer.Length
      modifies buffer
      ensures BracketLoop(pat, first, first, old(buffer[q..q + 32]))
              == if r.Ok? then Ok((r.value, buffer[q..q + 32])) else Err(r.error)
      ensures buffer[..q] == old(buffer[..q]) && buffer[q + 32..] == old(buffer[q + 32..])
    {
      hide SetRange;
      var p := first;
      while p < |pat|
        invariant first <= p
        invariant BracketLoop(pat, first, first, old(buffer[q..q + 32])) == BracketLoop(pat, p, first, buffer[q..q + 32])
        invariant buffer[..q] == old(buffer[..q]) && buffer[q + 32..] == old(buffer[q + 32..])
        decreases |pat| - p
      {
        var c := pat[p];
        p := p + 1;
        if c == ']' as int && p != first + 1 {
          return Ok(p);
        }
        if && c == '-' as int
           && !(p >= 2 && pat[p - 2] == '[' as int)
           && !(p >= 3 && pat[p - 3] == '[' as int && pat[p - 2] == '^' as int)
           && Peek(pat, p) != ']' as int
        {
          if p >= |pat| || pat[p - 2] > pat[p] {
            return Err(Erange);
          }
          SetBits(q, pat[p - 2], pat[p]);
          p := p + 1;
        } else if Peek(pat, p) == '-' as int && Peek(pat, p + 1) != ']' as int {
          p := p + 1;
          if p >= |pat| || pat[p - 2] > pat[p] {
            return Err(Erange);
          }
          SetBits(q, pat[p - 2], pat[p]);
          p := p + 1;
        } else if c == '[' as int && Peek(pat, p) == ':' as int {
          return Err(Outside);
        } else {
          SetBit(q, c);
        }
      }
      return Err(Ebrack);
    }

    // The zero bytes at the end of the map at q are not counted in the byte before it.
    method TrimMap(q: nat)
      requires 1 <= q && q + 32 <= buffer.Length && buffer[q - 1] == 32
      modifies buffer
      ensures buffer[q - 1] <= 32 && buffer[q..q + buffer[q - 1]] == Trim(old(buffer[q..q + 32]))
      ensures buffer[..q - 1] == old(buffer[..q - 1])
    {
      hide Trim;
      ghost var a := buffer[..];
      while buffer[q - 1] > 0 && buffer[q + buffer[q - 1] - 1] == 0
        invariant buffer[q - 1] <= 32
        invariant forall i | 0 <= i < buffer.Length && i != q - 1 :: buffer[i] == a[i]
        invariant Trim(a[q..q + buffer[q - 1]]) == Trim(a[q..q + 32])
        decreases buffer[q - 1]
      {
        TrimShorter(a[q..q + buffer[q - 1]], a[q..q + buffer[q - 1] - 1]);
        buffer[q - 1] := buffer[q - 1] - 1;
      }
      Trimmed(a[q..q + buffer[q - 1]]);
      assert buffer[q..q + buffer[q - 1]] == a[q..q + buffer[q - 1]];
    }

    // The opcode, the number of bytes in the map, and the map, all zero.
    method StartMap(op: byte)
      requires b + 34 <= buffer.Length
      modifies buffer
      ensures buffer[..b] == old(buffer[..b]) && buffer[b] == op && buffer[b + 1] == 32
      ensures buffer[b + 2..b + 34] == ZeroMap()
    {
      buffer[b] := op;
      buffer[b + 1] := 32;
      for i := 0 to 32
        invariant buffer[..b] == old(buffer[..b]) && buffer[b] == op && buffer[b + 1] == 32
        invariant buffer[b + 2..b + 2 + i] == ZeroMap()[..i]
      {
        buffer[b + 2 + i] := 0;
      }
    }

    // The bytes of a set, from b on; p is the address after the `['.
    method StoreSet(pat: Text, p: nat) returns (r: Result<nat>)
      requires 1 <= p < |pat| && b + 34 <= buffer.Length
      modifies buffer
      ensures buffer[..b] == old(buffer[..b])
      ensures
        var first := if pat[p] == '^' as int then p + 1 else p;
        var m := BracketLoop(pat, first, first, ZeroMap());
        if r.Err? then m == Err(r.error)
        else m.Ok? && m.value.0 == r.value && StoredSet(buffer[..], b, pat[p] == '^' as int, Trim(m.value.1))
    {
      hide BracketLoop, Trim, ZeroMap, MapHas, StoredSet;
      var negated := pat[p] == '^' as int;
      StartMap(if negated then CHARSET_NOT else CHARSET);
      ghost var front := buffer[..b + 2];
      FrontOf(buffer[..], b, front);
      r := SetItems(pat, if negated then p + 1 else p, b + 2);
      FrontOf(buffer[..], b, front);
      if r.Ok? {
        FinishSet(b, negated);
      }
    }

    // The map after the opcode at q is trimmed.
    method FinishSet(q: nat, ghost negated: bool)
      requires q + 34 <= buffer.Length && buffer[q + 1] == 32
      requires buffer[q] == if negated then CHARSET_NOT else CHARSET
      modifies buffer
      ensures buffer[..q] == old(buffer[..q]) && StoredSet(buffer[..], q, negated, Trim(old(buffer[q + 2..q + 34])))
    {
      hide Trim, StoredSet;
      ghost var front := buffer[..q + 1];
      TrimMap(q + 2);
      FrontOp(buffer[..], q, front);
      StoredSetIs(buffer[..], q, negated, buffer[q + 2..q + 2 + buffer[q + 1]]);
    }

    // `[', the character before p
    method AddBracket(pat: Text, p: nat) returns (r: Result<nat>)
      requires Valid() && 1 <= p
      modifies this, buffer
      ensures Valid() && (buffer == old(buffer) || fresh(buffer))
      ensures r.Ok? ==> ReadBracket(pat, p, old(State())) == Ok((r.value, State()))
      ensures r.Err? ==> if r.error == Esize then old(b) + 34 > MAX_BUF_SIZE
                         else ReadBracket(pat, p, old(State())) == Err(r.error)
    {
      hide Good, Trim, BracketLoop, Holds, Filled, ZeroMap, MapHas, StoredSet;
      ghost var st := State();
      if p >= |pat| {
        return Err(Ebrack);
      }
      var ok := GetBufferSpace(34);
      if !ok {
        return Err(Esize);
      }
      ghost var buf := buffer[..];
      r := StoreSet(pat, p);
      if r.Err? {
        SameBelow(buf, buffer[..], st);
        return;
      }
      var negated := pat[p] == '^' as int;
      var first := if negated then p + 1 else p;
      ghost var map8 := Trim(BracketLoop(pat, first, first, ZeroMap()).value.1);
      SetHolds(buf, st, buffer[..], negated, map8);
      laststart := Some(b);
      code := code + ([if negated then CHARSET_NOT else CHARSET, |map8|] + map8);
      StoredLength(buffer[..], b, negated, map8);
      b := b + 2 + buffer[b + 1];
    }

    // GET_UNSIGNED_NUMBER
    method GetUnsignedNumber(pat: Text, p0: nat, c0: byte) returns (p: nat, c: byte, num: int)
      requires p0 <= |pat|
      ensures (p, c, num) == GetNumber(pat, p0, c0, -1)
    {
      p, c, num := p0, c0, -1;
      if p != |pat| {
        c := pat[p];
        p := p + 1;
        while IsDigit(c)
          invariant p <= |pat| && GetNumber(pat, p0, c0, -1) == GetDigits(pat, p, c, num)
          decreases |pat| - p
        {
          num := (if num < 0 then 0 else num) * 10 + c - '0' as int;
          if p == |pat| {
            break;
          }
          c := pat[p];
          p := p + 1;
        }
      }
    }

    // handle_interval: the bounds, just after the `{'
    method ReadIntervalBounds(pat: Text, p0: nat) returns (valid: bool, p: nat, lower: int, upper: int)
      requires p0 <= |pat|
      ensures valid <==> ReadBounds(pat, p0).Some?
      ensures valid ==> lower >= 0 && upper >= 0 && ReadBounds(pat, p0) == Some((p, lower, upper))
    {
      hide GetNumber, GetDigits;
      valid, p, lower, upper := false, p0, -1, -1;
      if p == |pat| {
        return;
      }
      var c;
      p, c, lower := GetUnsignedNumber(pat, p, '{' as int);
      if c == ',' as int {
        p, c, upper := GetUnsignedNumber(pat, p, c);
        if upper < 0 {
          upper := RE_DUP_MAX;
        }
      } else {
        upper := lower;
      }
      if lower < 0 || upper > RE_DUP_MAX || lower > upper {
        return;
      }
      valid := c == '}' as int;
    }

    // `{', the character before p
    method AddBraces(pat: Text, p: nat) returns (r: Result<nat>)
      requires Valid() && p <= |pat|
      modifies this, buffer
      ensures Valid() && (buffer == old(buffer) || fresh(buffer))
      ensures r.Ok? ==> ReadInterval(pat, p, old(State())) == (r.value, State())
      ensures r.Err? ==> r.error == Esize && |ReadInterval(pat, p, old(State())).1.code| > MAX_BUF_SIZE
    {
      hide ReadBounds, Interval, Literal, Holds, StackFits;
      var valid, q, lower, upper := ReadIntervalBounds(pat, p);
      var ok;
      if valid {
        ok := AddInterval(lower, upper);
      } else {
        q := p;
        ok := AddLiteral('{' as int, Peek(pat, p));
      }
      r := if ok then Ok(q) else Err(Esize);
    }

    // One turn of the loop of regex_compile, at p.
    method TakeOne(pat: Text, p: nat) returns (r: Result<nat>)
      requires Valid() && p < |pat|
      modifies this, buffer
      ensures Valid() && (buffer == old(buffer) || fresh(buffer))
      ensures r.Ok? ==> Step(pat, p, old(State())) == Ok((r.value, State()))
      ensures r.Err? ==> if r.error == Esize then TooLong(Step(pat, p, old(State())), old(b))
                         else Step(pat, p, old(State())) == Err(r.error)
    {
      hide Repeat, AnyChar, ReadBracket, Open, Close, Alternative, Literal, Holds, StackFits, IsOutside, ReadInterval;
      var c := pat[p];
      var ok := true;
      if IsRepChar(c) {
        var zeroOk, manyOk, q := CountRepeats(pat, p);
        if laststart.Some? {
          ok := AddRepeat(zeroOk, manyOk);
        }
        return if ok then Ok(q) else Err(Esize);
      } else if c == '.' as int {
        ok := AddAnyChar();
      } else if c == '[' as int {
        r := AddBracket(pat, p + 1);
        return;
      } else if c == '(' as int {
        ok := OpenGroup();
      } else if c == ')' as int {
        ok := CloseGroup(Peek(pat, p + 1));
      } else if c == '|' as int {
        ok := AddAlternative();
      } else if c == '{' as int {
        r := AddBraces(pat, p + 1);
        return;
      } else if c == '^' as int || c == '$' as int {
        return Err(Outside);
      } else if c == '\\' as int {
        if p + 1 == |pat| {
          return Err(Eescape);
        }
        if IsOutside(pat[p + 1]) {
          return Err(Outside);
        }
        ok := AddLiteral(pat[p + 1], Peek(pat, p + 2));
        return if ok then Ok(p + 2) else Err(Esize);
      } else {
        ok := AddLiteral(c, Peek(pat, p + 1));
      }
      r := if ok then Ok(p + 1) else Err(Esize);
    }

    // The run of repetition characters at p: whether it allows none, or more than one.
    method CountRepeats(pat: Text, p: nat) returns (zeroOk: bool, manyOk: bool, q: nat)
      requires p < |pat| && IsRepChar(pat[p])
      ensures zeroOk == ZeroOk(RepRun(pat, p)) && manyOk == ManyOk(RepRun(pat, p))
      ensures q == p + |RepRun(pat, p)|
    {
      hide RepRun, ZeroOk, ManyOk;
      zeroOk, manyOk := pat[p] != '+' as int, pat[p] != '?' as int;
      q := p + 1;
      RepRunStep(pat, p);
      while q < |pat| && IsRepChar(pat[q])
        invariant p < q <= |pat|
        invariant !IsRepChar(Peek(pat, q)) ==> RepRun(pat, q) == []
        invariant |RepRun(pat, p)| == q - p + |RepRun(pat, q)|
        invariant ZeroOk(RepRun(pat, p)) <==> zeroOk || ZeroOk(RepRun(pat, q))
        invariant ManyOk(RepRun(pat, p)) <==> manyOk || ManyOk(RepRun(pat, q))
      {
        RepRunStep(pat, q);
        zeroOk, manyOk := zeroOk || pat[q] != '+' as int, manyOk || pat[q] != '?' as int;
        q := q + 1;
      }
    }

    // regex_compile
    method RegexCompile(pat: Text) returns (r: Result<nat>)
      requires Valid() && State() == Init()
      modifies this, buffer
      ensures Valid() && (buffer == old(buffer) || fresh(buffer))
      ensures r.Ok? ==> r.value <= buffer.Length && Compile(pat) == Ok(buffer[..r.value])
      ensures r.Err? && r.error != Esize ==> Compile(pat) == Err(r.error)
      ensures r == Err(Esize) && Compile(pat).Ok? ==> |Compile(pat).value| + 34 > MAX_BUF_SIZE
    {
      hide Step, Holds, Filled, Op1;
      var p := 0;
      while p < |pat|
        invariant p <= |pat| && Valid() && (buffer == old(buffer) || fresh(buffer))
        invariant Compile(pat) == CompileFrom(pat, p, State())
        decreases |pat| - p
      {
        var s := TakeOne(pat, p);
        if s.Err? {
          return s;
        }
        p := s.value;
      }
      ghost var st := State();
      if fixupAltJump.Some? {
        StoreReserved(b - fixupAltJump.value - 3);
      }
      if compileStack != [] {
        return Err(Eparen);
      }
      AllHeld(buffer[..], State());
      return Ok(b);
    }
  }

  lemma RepRunStep(pat: Text, p: nat)
    requires p < |pat| && IsRepChar(pat[p])
    ensures var ops, rest := RepRun(pat, p), RepRun(pat, p + 1);
      && |ops| == 1 + |rest|
      && (ZeroOk(ops) <==> pat[p] != '+' as int || ZeroOk(rest))
      && (ManyOk(ops) <==> pat[p] != '?' as int || ManyOk(rest))
      && (!IsRepChar(Peek(pat, p + 1)) ==> rest == [])
    ensures !ZeroOk([]) && !ManyOk([])
  {
    var ops, rest := RepRun(pat, p), RepRun(pat, p + 1);
    assert ops[1..] == rest;
    assert ops == [ops[0]] + rest;
  }

  // The code of a step that ran out of room would not have fitted.
  predicate TooLong(s: Result<(nat, CState)>, b: nat) {
    b + 34 > MAX_BUF_SIZE || (s.Ok? && |s.value.1.code| > MAX_BUF_SIZE)
  }

  lemma AllHeld(buf: seq<byte>, st: CState)
    requires Holds(buf, st) && st.stack == [] && (Filled(buf, st) || st.fixup.None?)
    ensures |st.code| <= |buf| && buf[..|st.code|] == st.code
  {
  }

  // The bytes from q on are those of a set.
  predicate StoredSet(buf: seq<byte>, q: nat, negated: bool, map8: seq<byte>) {
    && |map8| <= 32 && q + 2 + |map8| <= |buf| && buf[q + 1] == |map8|
    && buf[q..q + 2 + |map8|] == [if negated then CHARSET_NOT else CHARSET, |map8|] + map8
  }

  lemma StoredSetIs(buf: seq<byte>, q: nat, negated: bool, map8: seq<byte>)
    requires |map8| <= 32 && q + 2 + |map8| <= |buf|
    requires buf[q] == (if negated then CHARSET_NOT else CHARSET) && buf[q + 1] == |map8|
    requires buf[q + 2..q + 2 + |map8|] == map8
    ensures StoredSet(buf, q, negated, map8)
  {
    assert buf[q..q + 2 + |map8|] == [buf[q], buf[q + 1]] + buf[q + 2..q + 2 + |map8|];
  }

  // The bytes below a map, the opcode, and the length.
  lemma FrontOf(buf: seq<byte>, q: nat, front: seq<byte>)
    requires q + 2 <= |buf| && buf[..q + 2] == front
    ensures buf[..q] == front[..q] && buf[q] == front[q] && buf[q + 1] == front[q + 1] && buf[..q + 1] == front[..q + 1]
  {
  }

  lemma FrontOp(buf: seq<byte>, q: nat, front: seq<byte>)
    requires q + 1 <= |buf| && q + 1 <= |front| && buf[..q + 1] == front[..q + 1]
    ensures buf[..q] == front[..q] && buf[q] == front[q]
  {
    assert buf[..q] == buf[..q + 1][..q] && front[..q] == front[..q + 1][..q];
    assert buf[q] == buf[..q + 1][q] && front[q] == front[..q + 1][q];
  }

  lemma StoredLength(buf: seq<byte>, q: nat, negated: bool, map8: seq<byte>)
    requires StoredSet(buf, q, negated, map8)
    ensures q + 1 < |buf| && buf[q + 1] == |map8|
  {
  }

  lemma SetHolds(buf: seq<byte>, st: CState, buf': seq<byte>, negated: bool, map8: seq<byte>)
    requires Good(st) && Holds(buf, st) && StoredSet(buf', |st.code|, negated, map8)
    requires |buf'| == |buf| && buf'[..|st.code|] == buf[..|st.code|]
    ensures |map8| <= 32
    ensures Good(st.(code := st.code + ([if negated then CHARSET_NOT else CHARSET, |map8|] + map8),
                     laststart := Some(|st.code|)))
    ensures Holds(buf', st.(code := st.code + ([if negated then CHARSET_NOT else CHARSET, |map8|] + map8),
                            laststart := Some(|st.code|)))
  {
    hide StackFits, Reserved;
    var grown := st.(code := st.code + ([if negated then CHARSET_NOT else CHARSET, |map8|] + map8));
    AppendHolds(buf, st, buf', grown);
    KeepHolds(buf', grown, grown.(laststart := Some(|st.code|)));
  }

  lemma SameBelow(buf: seq<byte>, buf': seq<byte>, st: CState)
    requires Holds(buf, st) && |buf'| == |buf| && buf'[..|st.code|] == buf[..|st.code|]
    ensures Holds(buf', st)
  {
    forall i: nat | i < |st.code|
      ensures buf'[i] == buf[i]
    {
      assert buf'[i] == buf'[..|st.code|][i];
    }
  }

  lemma StoreBefore(a: Code, g: Code, op: byte, x: nat, arg: int)
    requires x + 3 <= |a|
    ensures StoreOp1(a + g, op, x, arg) == StoreOp1(a, op, x, arg) + g
  {
    assert (a + g)[..x] == a[..x] && (a + g)[x + 3..] == a[x + 3..] + g;
  }

  lemma TopFits(st: CState)
    requires Good(st) && st.stack != []
    ensures st.stack[|st.stack| - 1].laststart + HeadLength(st.stack[|st.stack| - 1].regnum) <= |st.code|
  {
  }

  lemma StoreGood(st: CState, op: byte, arg: int)
    requires Good(st) && st.fixup.Some?
    ensures Good(st.(code := StoreOp1(st.code, op, st.fixup.value, arg)))
  {
  }
}
