/**
 Compiled code read nondeterministically: an `on_failure_jump' may or may not be taken,
 every other jump is taken, dummy pushes and memory instructions do nothing. Read this
 way the code of a tree accepts exactly the words of the tree, wherever it stands.
 */
module RegexNfa {
  import opened RegexBytes
  import opened RegexSyntax
  import opened RegexGen

  // Two bytes hold a relative address only up to here.
  const MAX_OFFSET := 32767

  predicate IsJump(op: byte) {
    IsBack(op) || op == JUMP_PAST_ALT || op == ON_FAILURE_JUMP || op == DUMMY_FAILURE_JUMP
  }

  // The jumps that close a repetition.
  predicate IsBack(op: byte) {
    op == JUMP || op == POP_FAILURE_JUMP || op == MAYBE_POP_JUMP
  }

  predicate IsMemory(op: byte) {
    op == START_MEMORY || op == STOP_MEMORY
  }

  // The instructions that match one character.
  predicate IsEater(op: byte) {
    op == ANYCHAR || op == CHARSET || op == CHARSET_NOT
  }

  // The length of the instruction at a, 0 when there is none. A bitmap has at most one bit
  // for each character.
  function InsLen(P: Code, a: nat): (len: nat)
    requires a < |P|
    ensures len > 0 ==> a + len <= |P|
  {
    var op := P[a];
    if op == EXACTN then
      if a + 1 < |P| && P[a + 1] > 0 && a + 2 + P[a + 1] <= |P| then P[a + 1] as int + 2 else 0
    else if op == CHARSET || op == CHARSET_NOT then
      if a + 1 < |P| && P[a + 1] <= 32 && a + 2 + P[a + 1] <= |P| then P[a + 1] as int + 2 else 0
    else if op == ANYCHAR || op == PUSH_DUMMY_FAILURE then 1
    else if IsJump(op) || IsMemory(op) then
      if a + 3 <= |P| then 3 else 0
    else 0
  }

  // The absolute address a jump goes to.
  function Target(P: Code, a: nat): int
    requires a + 3 <= |P|
  {
    a + 3 + Extract(P[a + 1], P[a + 2])
  }

  // Whether the one-character instruction at a matches c.
  predicate Eats(P: Code, a: nat, c: byte)
    requires a < |P| && InsLen(P, a) > 0
  {
    if P[a] == ANYCHAR then c != 0
    else if P[a] == CHARSET then MapHas(P[a + 2..a + 2 + P[a + 1]], c)
    else if P[a] == CHARSET_NOT then !MapHas(P[a + 2..a + 2 + P[a + 1]], c)
    else P[a] == EXACTN && P[a + 1] == 1 && P[a + 2] == c
  }

  // Where one instruction may lead from address a and text position i.
  function Succ(P: Code, t: Text, a: nat, i: nat): (r: seq<(nat, nat)>)
    requires a < |P| && i <= |t|
    ensures |r| <= 2
    ensures forall s | s in r :: i <= s.1 <= |t|
  {
    var len := InsLen(P, a);
    if len == 0 then []
    else if P[a] == EXACTN then
      var m := P[a + 1];
      if i + m <= |t| && t[i..i + m] == P[a + 2..a + 2 + m] then [(a + len, i + m)] else []
    else if IsEater(P[a]) then
      if i < |t| && Eats(P, a, t[i]) then [(a + len, i + 1)] else []
    else if P[a] == ON_FAILURE_JUMP then
      if Target(P, a) >= 0 then [(a + 3, i), (Target(P, a), i)] else [(a + 3, i)]
    else if IsJump(P[a]) then
      if Target(P, a) >= 0 then [(Target(P, a), i)] else []
    else [(a + len, i)]
  }

  // From address a and position i the end of the code is reached at position j in at most n steps.
  ghost predicate AccN(P: Code, t: Text, a: nat, i: nat, j: nat, n: nat)
    requires i <= |t|
    decreases n
  {
    || (a == |P| && i == j)
    || (n > 0 && a < |P| && exists k | 0 <= k < |Succ(P, t, a, i)| ::
          AccN(P, t, Succ(P, t, a, i)[k].0, Succ(P, t, a, i)[k].1, j, n - 1))
  }

  ghost predicate Acc(P: Code, t: Text, a: nat, i: nat, j: nat)
    requires i <= |t|
  {
    exists n: nat :: AccN(P, t, a, i, j, n)
  }

  lemma {:induction false} AccNMore(P: Code, t: Text, a: nat, i: nat, j: nat, n: nat, m: nat)
    requires i <= |t| && n <= m && AccN(P, t, a, i, j, n)
    ensures AccN(P, t, a, i, j, m)
    decreases n
  {
    if !(a == |P| && i == j) {
      var S := Succ(P, t, a, i);
      var k :| 0 <= k < |S| && AccN(P, t, S[k].0, S[k].1, j, n - 1);
      AccNMore(P, t, S[k].0, S[k].1, j, n - 1, m - 1);
    }
  }

  lemma AccNEnd(P: Code, t: Text, i: nat, j: nat, n: nat)
    requires i <= |t|
    ensures AccN(P, t, |P|, i, j, n) <==> i == j
  {
  }

  // ----- single steps -----

  predicate At(P: Code, s: nat, g: Code) {
    s + |g| <= |P| && P[s..s + |g|] == g
  }

  lemma AtParts(P: Code, s: nat, g: Code, h: Code)
    requires At(P, s, g + h)
    ensures At(P, s, g) && At(P, s + |g|, h)
  {
    assert P[s..s + |g + h|] == g + h;
    assert P[s..s + |g|] == (g + h)[..|g|];
    assert P[s + |g|..s + |g| + |h|] == (g + h)[|g|..];
  }

  lemma JumpAt(P: Code, s: nat, op: byte, arg: int)
    requires At(P, s, Op1(op, arg)) && IsJump(op) && -32768 <= arg <= MAX_OFFSET
    ensures P[s] == op && InsLen(P, s) == 3 && Target(P, s) == s + 3 + arg
  {
    StoreThenExtract(arg);
    assert P[s..s + 3][0] == op && P[s..s + 3][1] == Low(arg) && P[s..s + 3][2] == High(arg);
  }

  // An instruction with one way on.
  lemma OneWay(P: Code, t: Text, a: nat, i: nat, j: nat, n: nat, b: nat, k: nat)
    requires a < |P| && i <= |t| && k <= |t|
    requires Succ(P, t, a, i) == [(b, k)]
    ensures AccN(P, t, a, i, j, n) <==> n > 0 && AccN(P, t, b, k, j, n - 1)
  {
    var S := Succ(P, t, a, i);
    if n > 0 && AccN(P, t, b, k, j, n - 1) {
      assert AccN(P, t, S[0].0, S[0].1, j, n - 1);
    }
  }

  lemma NoWay(P: Code, t: Text, a: nat, i: nat, j: nat, n: nat)
    requires a < |P| && i <= |t| && Succ(P, t, a, i) == []
    ensures !AccN(P, t, a, i, j, n)
  {
  }

  lemma TwoWays(P: Code, t: Text, a: nat, i: nat, j: nat, n: nat, b: nat, c: nat)
    requires a < |P| && i <= |t|
    requires Succ(P, t, a, i) == [(b, i), (c, i)]
    ensures AccN(P, t, a, i, j, n) <==> n > 0 && (AccN(P, t, b, i, j, n - 1) || AccN(P, t, c, i, j, n - 1))
  {
    var S := Succ(P, t, a, i);
    if n > 0 && AccN(P, t, b, i, j, n - 1) {
      assert AccN(P, t, S[0].0, S[0].1, j, n - 1);
    }
    if n > 0 && AccN(P, t, c, i, j, n - 1) {
      assert AccN(P, t, S[1].0, S[1].1, j, n - 1);
    }
  }

  lemma PlainJump(P: Code, t: Text, s: nat, op: byte, arg: int, i: nat, j: nat, n: nat)
    requires At(P, s, Op1(op, arg)) && IsJump(op) && op != ON_FAILURE_JUMP
    requires -32768 <= arg <= MAX_OFFSET && 0 <= s + 3 + arg && i <= |t|
    ensures AccN(P, t, s, i, j, n) <==> n > 0 && AccN(P, t, s + 3 + arg, i, j, n - 1)
  {
    JumpAt(P, s, op, arg);
    OneWay(P, t, s, i, j, n, s + 3 + arg, i);
  }

  lemma FailureJump(P: Code, t: Text, s: nat, arg: int, i: nat, j: nat, n: nat)
    requires At(P, s, Op1(ON_FAILURE_JUMP, arg))
    requires -32768 <= arg <= MAX_OFFSET && 0 <= s + 3 + arg && i <= |t|
    ensures AccN(P, t, s, i, j, n) <==> n > 0 && (AccN(P, t, s + 3, i, j, n - 1) || AccN(P, t, s + 3 + arg, i, j, n - 1))
  {
    JumpAt(P, s, ON_FAILURE_JUMP, arg);
    TwoWays(P, t, s, i, j, n, s + 3, s + 3 + arg);
  }

  // One instruction that does nothing.
  predicate IsNoOp(g: Code) {
    (|g| == 1 && g[0] == PUSH_DUMMY_FAILURE) || (|g| == 3 && IsMemory(g[0]))
  }

  lemma NoOpStep(P: Code, t: Text, s: nat, g: Code, i: nat, j: nat, n: nat)
    requires At(P, s, g) && i <= |t|
    requires IsNoOp(g)
    ensures AccN(P, t, s, i, j, n) <==> n > 0 && AccN(P, t, s + |g|, i, j, n - 1)
  {
    assert P[s..s + |g|][0] == g[0];
    OneWay(P, t, s, i, j, n, s + |g|, i);
  }

  // Code that does nothing: any string of dummy pushes and memory instructions is skipped.
  lemma Skip(P: Code, t: Text, s: nat, g: Code, i: nat, j: nat, n: nat)
    requires At(P, s, g) && i <= |t|
    requires g == [] || IsNoOp(g)
    ensures AccN(P, t, s, i, j, n) ==> AccN(P, t, s + |g|, i, j, n)
    ensures AccN(P, t, s + |g|, i, j, n) ==> AccN(P, t, s, i, j, n + 1)
  {
    if g != [] {
      NoOpStep(P, t, s, g, i, j, n);
      NoOpStep(P, t, s, g, i, j, n + 1);
      if AccN(P, t, s, i, j, n) {
        AccNMore(P, t, s + |g|, i, j, n - 1, n);
      }
    } else if AccN(P, t, s, i, j, n) {
      AccNMore(P, t, s, i, j, n, n + 1);
    }
  }

  // ----- one-character atoms -----

  lemma EaterStep(P: Code, t: Text, s: nat, i: nat, j: nat, n: nat)
    requires s < |P| && IsEater(P[s]) && InsLen(P, s) > 0 && i <= |t|
    ensures AccN(P, t, s, i, j, n) <==>
      n > 0 && i < |t| && Eats(P, s, t[i]) && AccN(P, t, s + InsLen(P, s), i + 1, j, n - 1)
  {
    hide AccN;
    if i < |t| && Eats(P, s, t[i]) {
      OneWay(P, t, s, i, j, n, s + InsLen(P, s), i + 1);
    } else {
      NoWay(P, t, s, i, j, n);
    }
  }

  lemma LiteralStep(P: Code, t: Text, s: nat, run: Text, i: nat, j: nat, n: nat)
    requires 0 < |run| <= 255 && At(P, s, Flush(run)) && i <= |t|
    ensures AccN(P, t, s, i, j, n) <==>
      n > 0 && i + |run| <= |t| && t[i..i + |run|] == run && AccN(P, t, s + 2 + |run|, i + |run|, j, n - 1)
  {
    hide AccN, Succ, At;
    LiteralAt(P, s, run);
    LiteralSucc(P, t, s, run, i);
    if i + |run| <= |t| && t[i..i + |run|] == run {
      OneWay(P, t, s, i, j, n, s + 2 + |run|, i + |run|);
    } else {
      NoWay(P, t, s, i, j, n);
    }
  }

  lemma LiteralAt(P: Code, s: nat, run: Text)
    requires 0 < |run| <= 255 && At(P, s, Flush(run))
    ensures s + 2 + |run| <= |P| && P[s] == EXACTN && P[s + 1] == |run| && P[s + 2..s + 2 + |run|] == run
  {
    var g := P[s..s + 2 + |run|];
    assert g == Flush(run);
    assert P[s] == g[0] && P[s + 1] == g[1];
    forall k | 0 <= k < |run|
      ensures P[s + 2 + k] == run[k]
    {
      assert g[2 + k] == Flush(run)[2 + k];
    }
  }

  lemma LiteralSucc(P: Code, t: Text, s: nat, run: Text, i: nat)
    requires 0 < |run| <= 255 && s + 2 + |run| <= |P| && i <= |t|
    requires P[s] == EXACTN && P[s + 1] == |run| && P[s + 2..s + 2 + |run|] == run
    ensures Succ(P, t, s, i) ==
      if i + |run| <= |t| && t[i..i + |run|] == run then [(s + 2 + |run|, i + |run|)] else []
  {
  }

  // The one-character atoms, and that their code matches the characters of their language.
  predicate OneChar(a: Atom) {
    !a.Group?
  }

  predicate AtomHas(a: Atom, c: byte)
    requires OneChar(a)
  {
    match a
    case Chr(d) => c == d
    case Dot => c != 0
    case Set(br) => BracketHas(br, c)
  }

  lemma AtomHasLang(a: Atom, w: Text)
    requires OneChar(a)
    ensures w in AtomLang(a) <==> |w| == 1 && AtomHas(a, w[0])
  {
    if a.Chr? && |w| == 1 && w[0] == a.c {
      assert w == [a.c];
    }
  }

  lemma AtomEats(P: Code, s: nat, a: Atom, reg: nat)
    requires OneChar(a) && At(P, s, AtomCode(a, reg))
    ensures |AtomCode(a, reg)| > 0 && InsLen(P, s) == |AtomCode(a, reg)|
    ensures P[s] == EXACTN || IsEater(P[s])
    ensures P[s] == EXACTN ==> P[s + 1] == 1
    ensures forall c: byte :: Eats(P, s, c) <==> AtomHas(a, c)
  {
    hide BracketMap, Trim, BracketHas, MapHas;
    match a
    case Chr(c) =>
      LiteralAt(P, s, [c]);
      assert P[s + 2] == P[s + 2..s + 3][0];
    case Dot =>
      assert P[s] == P[s..s + 1][0];
    case Set(br) =>
      SetEats(P, s, br);
  }

  lemma SetEats(P: Code, s: nat, br: Bracket)
    requires At(P, s, BracketCode(br))
    ensures InsLen(P, s) == |BracketCode(br)| && IsEater(P[s])
    ensures forall c: byte :: Eats(P, s, c) <==> BracketHas(br, c)
  {
    var w := Trim(BracketMap(br));
    SetBytesAt(P, s, br);
    hide BracketMap, Trim, BracketHas, MapHas, At;
    forall c: byte
      ensures Eats(P, s, c) <==> BracketHas(br, c)
    {
      assert MapHas(w, c) <==> MapHas(BracketMap(br), c);
    }
  }

  lemma SetBytesAt(P: Code, s: nat, br: Bracket)
    requires At(P, s, BracketCode(br))
    ensures
      var w := Trim(BracketMap(br));
      && s + 2 + |w| <= |P| && P[s] == (if br.negated then CHARSET_NOT else CHARSET) && P[s + 1] == |w|
      && P[s + 2..s + 2 + |w|] == w
  {
    hide BracketMap, Trim;
    var g := BracketCode(br);
    assert P[s] == P[s..s + |g|][0] && P[s + 1] == P[s..s + |g|][1];
    assert P[s + 2..s + |g|] == P[s..s + |g|][2..];
  }

  lemma AtomStep(P: Code, t: Text, s: nat, a: Atom, reg: nat, i: nat, j: nat, n: nat)
    requires OneChar(a) && At(P, s, AtomCode(a, reg)) && i <= |t|
    ensures AccN(P, t, s, i, j, n) <==>
      n > 0 && i < |t| && AtomHas(a, t[i]) && AccN(P, t, s + |AtomCode(a, reg)|, i + 1, j, n - 1)
  {
    hide *;
    AtomEats(P, s, a, reg);
    if a.Chr? {
      ChrIs(a.c, reg);
      LiteralStep(P, t, s, [a.c], i, j, n);
      if i < |t| {
        OneOf(t, i, a.c);
      }
    } else {
      EaterHere(P, s, a, reg);
      EaterStep(P, t, s, i, j, n);
    }
  }

  lemma ChrIs(c: byte, reg: nat)
    ensures AtomCode(Chr(c), reg) == Flush([c]) && |Flush([c])| == 3
    ensures OneChar(Chr(c)) && forall d: byte :: AtomHas(Chr(c), d) <==> d == c
  {
  }

  lemma OneOf(t: Text, i: nat, c: byte)
    requires i < |t|
    ensures t[i..i + 1] == [c] <==> t[i] == c
  {
    assert t[i..i + 1] == [t[i]];
  }

  lemma EaterHere(P: Code, s: nat, a: Atom, reg: nat)
    requires OneChar(a) && !a.Chr? && At(P, s, AtomCode(a, reg))
    ensures s < |P| && IsEater(P[s])
  {
    var g := AtomCode(a, reg);
    assert g[0] == ANYCHAR || g[0] == CHARSET || g[0] == CHARSET_NOT;
    assert P[s..s + |g|][0] == P[s];
  }
}
