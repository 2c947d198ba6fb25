/**
 The compiler as a state machine over the pattern text: what one character of the pattern
 does to the code and to the compiler's variables. Addresses are offsets into the code.
 The three bytes reserved for the jump after an alternative hold 0 until they are stored.

 The syntax bits are those of RE_SYNTAX_POSIX_EXTENDED, without a translate table. A pattern
 using anchors, character classes, GNU operators or back-references is answered
 with Outside: those are not modelled.
 */
module RegexCompileSpec {
  import opened Wrappers
  import opened Numerals
  import opened RegexBytes
  import opened RegexSyntax
  import opened RegexGen

  datatype Error =
    | Ebrack
    | Erange
    | Eescape
    | Eparen
    | Esize
    | Outside

  datatype Result<+T> = Ok(value: T) | Err(error: Error)

  // One open group: the values to restore at its close.
  datatype Frame = Frame(begalt: nat, fixup: Option<nat>, laststart: nat, regnum: nat)

  datatype CState = CState(
    code: Code,
    begalt: nat,
    laststart: Option<nat>,
    fixup: Option<nat>,
    pending: Option<nat>,
    regnum: nat,
    stack: seq<Frame>)

  function HeadLength(regnum: nat): nat {
    if regnum <= MAX_REGNUM then 3 else 0
  }

  predicate FixupFits(fixup: Option<nat>, begalt: nat) {
    fixup.Some? ==> fixup.value + 3 <= begalt
  }

  // The frames lie one inside the other, below address `limit`.
  predicate StackFits(stack: seq<Frame>, limit: nat, regnum: nat)
    decreases |stack|
  {
    stack != [] ==>
      var f := stack[|stack| - 1];
      && FixupFits(f.fixup, f.begalt)
      && f.begalt <= f.laststart
      && f.laststart + HeadLength(f.regnum) <= limit
      && 1 <= f.regnum <= regnum
      && StackFits(stack[..|stack| - 1], f.begalt, f.regnum)
  }

  predicate Good(st: CState) {
    && st.begalt <= |st.code|
    && FixupFits(st.fixup, st.begalt)
    && (st.laststart.Some? ==> st.begalt <= st.laststart.value <= |st.code|)
    && (st.pending.Some? ==>
          && st.begalt <= st.pending.value < |st.code|
          && st.pending.value + 1 + st.code[st.pending.value] <= |st.code|)
    && StackFits(st.stack, st.begalt, st.regnum)
  }

  function Init(): (st: CState)
    ensures Good(st)
  {
    CState([], 0, None, None, None, 0, [])
  }

  // The pattern is null-terminated: looking past its end finds 0.
  function Peek(pat: Text, p: nat): byte {
    if p < |pat| then pat[p] else 0
  }

  // ----- insertion and back-patching -----

  function InsertOp1(code: Code, op: byte, loc: nat, arg: int): (r: Code)
    requires loc <= |code|
    ensures |r| == |code| + 3
  {
    code[..loc] + Op1(op, arg) + code[loc..]
  }

  function StoreOp1(code: Code, op: byte, loc: nat, arg: int): (r: Code)
    requires loc + 3 <= |code|
    ensures |r| == |code|
  {
    code[..loc] + Op1(op, arg) + code[loc + 3..]
  }

  function Inserted(code: Code, loc: nat, g: Code): (r: Code)
    requires loc <= |code|
    ensures |r| == |code| + |g|
  {
    code[..loc] + g + code[loc..]
  }

  // ----- the cases of the switch -----

  predicate IsRepChar(c: byte) {
    c == '*' as int || c == '+' as int || c == '?' as int
  }

  // normal_char: extend the exactn being built, or start a new one.
  function Literal(st: CState, c: byte, next: byte): (r: CState)
    requires Good(st)
    ensures Good(r) && |st.code| <= |r.code|
  {
    if StartsExactn(st, next) then
      st.(code := st.code + [EXACTN, 1, c], laststart := Some(|st.code|), pending := Some(|st.code| + 1))
    else
      var q := st.pending.value;
      st.(code := st.code[q := st.code[q] + 1] + [c])
  }

  predicate StartsExactn(st: CState, next: byte)
    requires Good(st)
  {
    || st.pending.None?
    || st.pending.value + st.code[st.pending.value] + 1 != |st.code|
    || st.code[st.pending.value] == 255
    || IsRepChar(next) || next == '^' as int || next == '{' as int
  }

  // `*', `+', `?' after an operand: the jumps around it.
  function Repeat(st: CState, zeroOk: bool, manyOk: bool): (r: CState)
    requires Good(st) && st.laststart.Some?
    ensures Good(r) && |st.code| <= |r.code|
  {
    var l := st.laststart.value;
    var c1 := if manyOk then st.code + Op1(MAYBE_POP_JUMP, l - 3 - |st.code| - 3) else st.code;
    var c2 := InsertOp1(c1, ON_FAILURE_JUMP, l, |c1| + 3 - l - 3);
    var c3 := if zeroOk then c2 else InsertOp1(c2, DUMMY_FAILURE_JUMP, l, l + 6 - l - 3);
    st.(code := c3, pending := None)
  }

  // An interval after an operand, or after nothing: numbers to be set, and counted jumps
  // around the operand. No more than zero of it is a jump over it.
  function Interval(st: CState, lower: nat, upper: nat): (r: CState)
    requires Good(st)
    ensures Good(r) && |st.code| <= |r.code|
  {
    var n := |st.code|;
    var l := if st.laststart.Some? then st.laststart.value else n;
    var code :=
      if upper == 0 then Inserted(st.code, l, Op1(JUMP, n + 3 - l - 3))
      else
        var more := if upper > 1 then 5 else 0;
        var c1 := Inserted(st.code, l, Op2(SUCCEED_N, n + 5 + more - l - 3, lower));
        var c2 := Inserted(c1, l, Op2(SET_NUMBER_AT, 5, lower));
        if upper == 1 then c2
        else
          var c3 := c2 + Op2(JUMP_N, l + 5 - (n + 10) - 3, upper - 1);
          Inserted(c3, l, Op2(SET_NUMBER_AT, n + 15 - l, upper - 1));
    st.(code := code, laststart := Some(l), pending := None)
  }

  // GET_UNSIGNED_NUMBER: c is the character fetched last; -1 if there are no digits.
  function GetNumber(pat: Text, p: nat, c: byte, num: int): (r: (nat, byte, int))
    requires p <= |pat|
    ensures p <= r.0 <= |pat|
    decreases |pat| - p
  {
    if p == |pat| then (p, c, num)
    else GetDigits(pat, p + 1, pat[p], num)
  }

  function GetDigits(pat: Text, p: nat, c: byte, num: int): (r: (nat, byte, int))
    requires p <= |pat|
    ensures p <= r.0 <= |pat|
    decreases |pat| - p
  {
    if !IsDigit(c) then (p, c, num)
    else
      var num' := (if num < 0 then 0 else num) * 10 + c - '0' as int;
      if p == |pat| then (p, c, num') else GetDigits(pat, p + 1, pat[p], num')
  }

  // The bounds read from p on, just after a `{', and where the interval ends; nothing if it is
  // invalid.
  function ReadBounds(pat: Text, p: nat): (r: Option<(nat, nat, nat)>)
    requires p <= |pat|
    ensures r.Some? ==> p <= r.value.0 <= |pat|
  {
    if p == |pat| then None
    else
      var (q, c, lower) := GetNumber(pat, p, '{' as int, -1);
      var (q', c', upper) :=
        if c == ',' as int then
          var (x, d, u) := GetNumber(pat, q, c, -1);
          (x, d, if u < 0 then RE_DUP_MAX else u)
        else (q, c, lower);
      if lower < 0 || upper > RE_DUP_MAX || lower > upper || c' != '}' as int then None
      else Some((q', lower, upper))
  }

  // `{', the character before p: an invalid interval is an ordinary `{'.
  function ReadInterval(pat: Text, p: nat, st: CState): (r: (nat, CState))
    requires Good(st) && p <= |pat|
    ensures p <= r.0 <= |pat| && Good(r.1) && |st.code| <= |r.1.code|
  {
    match ReadBounds(pat, p)
    case None => (p, Literal(st, '{' as int, Peek(pat, p)))
    case Some(b) => (b.0, Interval(st, b.1, b.2))
  }

  // The run of repetition characters that starts at p, as operators.
  function RepRun(pat: Text, p: nat): (ops: seq<RepOp>)
    ensures p + |ops| <= |pat| || ops == []
    ensures p < |pat| && IsRepChar(pat[p]) ==> ops != []
    decreases |pat| - p
  {
    if p < |pat| && IsRepChar(pat[p]) then
      [if pat[p] == '*' as int then Star else if pat[p] == '+' as int then Plus else Opt] + RepRun(pat, p + 1)
    else []
  }

  function AnyChar(st: CState): (r: CState)
    requires Good(st)
    ensures Good(r) && |st.code| <= |r.code|
  {
    st.(code := st.code + [ANYCHAR], laststart := Some(|st.code|))
  }

  function Open(st: CState): (r: CState)
    requires Good(st)
    ensures Good(r) && |st.code| <= |r.code|
  {
    var regnum := st.regnum + 1;
    var code := st.code + if regnum <= MAX_REGNUM then [START_MEMORY, regnum, 0] else [];
    var stack := st.stack + [Frame(st.begalt, st.fixup, |st.code|, regnum)];
    assert stack[..|st.stack|] == st.stack;
    StackFitsMore(st.stack, st.begalt, st.regnum, st.begalt, regnum);
    CState(code, |code|, None, None, None, regnum, stack)
  }

  lemma StackFitsMore(stack: seq<Frame>, limit: nat, regnum: nat, limit': nat, regnum': nat)
    requires StackFits(stack, limit, regnum) && limit <= limit' && regnum <= regnum'
    ensures StackFits(stack, limit', regnum')
  {
  }

  // `|': a failure jump before the alternative just read, a reserved jump after it.
  function Alternative(st: CState): (r: CState)
    requires Good(st)
    ensures Good(r) && |st.code| <= |r.code|
  {
    var c1 := InsertOp1(st.code, ON_FAILURE_JUMP, st.begalt, |st.code| + 6 - st.begalt - 3);
    var c2 := if st.fixup.Some? then StoreOp1(c1, JUMP_PAST_ALT, st.fixup.value, |c1| - st.fixup.value - 3) else c1;
    StackFitsMore(st.stack, st.begalt, st.regnum, |c2| + 3, st.regnum);
    CState(c2 + [0, 0, 0], |c2| + 3, None, Some(|c2|), None, st.regnum, st.stack)
  }

  // The code once the reserved jump, if any, leads to its end.
  function Seal(st: CState): (r: Code)
    requires Good(st)
    ensures |r| == |st.code|
  {
    if st.fixup.Some? then StoreOp1(st.code, JUMP_PAST_ALT, st.fixup.value, |st.code| - st.fixup.value - 3)
    else st.code
  }

  // `)'. An unmatched one is an ordinary character, but only after the dummy push.
  function Close(st: CState, next: byte): (r: CState)
    requires Good(st)
    ensures Good(r) && |st.code| <= |r.code|
  {
    var code := if st.fixup.Some? then Seal(st) + [PUSH_DUMMY_FAILURE] else st.code;
    if st.stack == [] then Literal(st.(code := code), ')' as int, next)
    else
      var f := st.stack[|st.stack| - 1];
      var inner: byte := (st.regnum - f.regnum) % 256;
      var rest := st.stack[..|st.stack| - 1];
      var code' := if f.regnum <= MAX_REGNUM
                   then code[f.laststart + 2 := inner] + [STOP_MEMORY, f.regnum, inner] else code;
      StackFitsMore(rest, f.begalt, f.regnum, f.begalt, st.regnum);
      CState(code', f.begalt, Some(f.laststart), f.fixup, None, st.regnum, rest)
  }

  // ----- bracket expressions -----

  // compile_range: p is the address of the ending character, the starting one is at p - 2.
  function CompileRange(pat: Text, p: nat, map8: seq<byte>): (r: Result<seq<byte>>)
    requires 2 <= p && |map8| == 32
    ensures r.Ok? ==> p < |pat| && |r.value| == 32
    ensures r.Err? ==> r.error != Esize
  {
    if p >= |pat| then Err(Erange)
    else if pat[p - 2] > pat[p] then Err(Erange)
    else Ok(SetRange(map8, pat[p - 2], pat[p]))
  }

  // `first` is the address just after `[' or `[^'; p is where reading goes on.
  function BracketLoop(pat: Text, p: nat, first: nat, map8: seq<byte>): (r: Result<(nat, seq<byte>)>)
    requires 1 <= first <= p && |map8| == 32
    ensures r.Ok? ==> p < r.value.0 <= |pat| && |r.value.1| == 32
    ensures r.Err? ==> r.error != Esize
    decreases |pat| - p
  {
    if p >= |pat| then Err(Ebrack)
    else
      var c := pat[p];
      var q := p + 1;
      if c == ']' as int && q != first + 1 then Ok((q, map8))
      else if && c == '-' as int
              && !(q >= 2 && pat[q - 2] == '[' as int)
              && !(q >= 3 && pat[q - 3] == '[' as int && pat[q - 2] == '^' as int)
              && Peek(pat, q) != ']' as int then
        var m := CompileRange(pat, q, map8);
        if m.Err? then Err(m.error) else BracketLoop(pat, q + 1, first, m.value)
      else if Peek(pat, q) == '-' as int && Peek(pat, q + 1) != ']' as int then
        var m := CompileRange(pat, q + 1, map8);
        if m.Err? then Err(m.error) else BracketLoop(pat, q + 2, first, m.value)
      else if c == '[' as int && Peek(pat, q) == ':' as int then Err(Outside)
      else BracketLoop(pat, q, first, SetListBit(map8, c))
  }

  // p is the address just after `['.
  function ReadBracket(pat: Text, p: nat, st: CState): (r: Result<(nat, CState)>)
    requires Good(st) && 1 <= p
    ensures r.Ok? ==> p < r.value.0 <= |pat| && Good(r.value.1) && |st.code| <= |r.value.1.code|
    ensures r.Err? ==> r.error != Esize
  {
    if p >= |pat| then Err(Ebrack)
    else
      var negated := pat[p] == '^' as int;
      var first := if negated then p + 1 else p;
      var m := BracketLoop(pat, first, first, ZeroMap());
      if m.Err? then Err(m.error)
      else
        var map8 := Trim(m.value.1);
        var code := st.code + ([if negated then CHARSET_NOT else CHARSET, |map8|] + map8);
        Ok((m.value.0, st.(code := code, laststart := Some(|st.code|))))
  }

  // ----- the loop -----

  const GNU_OPERATORS: seq<char> := "wW<>bB`'123456789"

  predicate IsOutside(c: byte) {
    exists k | 0 <= k < |GNU_OPERATORS| :: c == GNU_OPERATORS[k] as int
  }

  // One turn of the loop, at a character of the pattern.
  function Step(pat: Text, p: nat, st: CState): (r: Result<(nat, CState)>)
    requires Good(st) && p < |pat|
    ensures r.Ok? ==> p < r.value.0 <= |pat| && Good(r.value.1) && |st.code| <= |r.value.1.code|
    ensures r.Err? ==> r.error != Esize
  {
    var c := pat[p];
    if IsRepChar(c) then
      var ops := RepRun(pat, p);
      Ok((p + |ops|, if st.laststart.Some? then Repeat(st, ZeroOk(ops), ManyOk(ops)) else st))
    else if c == '.' as int then Ok((p + 1, AnyChar(st)))
    else if c == '[' as int then ReadBracket(pat, p + 1, st)
    else if c == '(' as int then Ok((p + 1, Open(st)))
    else if c == ')' as int then Ok((p + 1, Close(st, Peek(pat, p + 1))))
    else if c == '|' as int then Ok((p + 1, Alternative(st)))
    else if c == '{' as int then Ok(ReadInterval(pat, p + 1, st))
    else if c == '^' as int || c == '$' as int then Err(Outside)
    else if c == '\\' as int then
      if p + 1 == |pat| then Err(Eescape)
      else if IsOutside(pat[p + 1]) then Err(Outside)
      else Ok((p + 2, Literal(st, pat[p + 1], Peek(pat, p + 2))))
    else Ok((p + 1, Literal(st, c, Peek(pat, p + 1))))
  }

  function CompileFrom(pat: Text, p: nat, st: CState): (r: Result<Code>)
    requires Good(st) && p <= |pat|
    ensures r.Ok? ==> |st.code| <= |r.value|
    decreases |pat| - p
  {
    if p == |pat| then
      if st.stack != [] then Err(Eparen) else Ok(Seal(st))
    else
      var s := Step(pat, p, st);
      if s.Err? then Err(s.error) else CompileFrom(pat, s.value.0, s.value.1)
  }

  function Compile(pat: Text): Result<Code> {
    CompileFrom(pat, 0, Init())
  }
}
