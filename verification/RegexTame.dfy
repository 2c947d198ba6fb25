/**
 Patterns the two defects of the matcher cannot touch, told from the tree: sets have no
 character from 248 on, and there is no repeated literal, or no set but negated ones.
 */
module RegexTame {
  import opened RegexBytes
  import opened RegexSyntax
  import opened RegexGen
  import opened RegexNfa
  import opened RegexMeaning
  import opened RegexBlocks
  import opened RegexVm
  import opened RegexVmProof
  import opened RegexMatch

  // What a tree may have: repetition at all, repeated literals, sets that are not negated, and
  // characters from 248 on in them.
  datatype Limits = Limits(loops: bool, literals: bool, sets: bool, large: bool)

  predicate TameAtom(a: Atom, lim: Limits) {
    match a
    case Set(br) => br.negated || (lim.sets && (lim.large || forall c: byte | c >= 248 :: !BracketHas(br, c)))
    case Group(r) => TameRegex(r, lim)
    case _ => true
  }

  predicate TamePiece(p: Piece, lim: Limits) {
    TameAtom(p.atom, lim) && (p.Rep? && ManyOk(p.ops) ==> lim.loops && (p.atom.Chr? ==> lim.literals))
  }

  predicate TameBranch(b: Branch, lim: Limits) {
    b.Then? ==> TamePiece(b.first, lim) && TameBranch(b.rest, lim)
  }

  predicate TameRegex(r: Regex, lim: Limits) {
    TameBranch(r.branch, lim) && (r.Or? ==> TameRegex(r.rest, lim))
  }

  const NO_LITERALS := Limits(true, false, true, false)
  const NO_SETS := Limits(true, true, false, false)
  const NO_LOOPS := Limits(false, true, true, true)

  predicate Tame(r: Regex) {
    TameRegex(r, NO_LITERALS) || TameRegex(r, NO_SETS)
  }

  // ----- the same of code -----

  predicate TameAt(P: Code, a: nat, lim: Limits)
    requires a < |P|
  {
    && (P[a] == CHARSET ==> lim.sets && a + 1 < |P| && (P[a + 1] < 32 || lim.large))
    && (IsBack(P[a]) ==> lim.loops)
    && (IsBack(P[a]) && 0 <= Head(P, a) && Head(P, a) + 3 < |P| && P[Head(P, a) + 3] == EXACTN ==> lim.literals)
  }

  ghost predicate TameCode(P: Code, s: nat, e: nat, lim: Limits) {
    && s <= e <= |P| && Scan(P, s, e)
    && forall a: nat | StartIn(P, s, e, a) :: TameAt(P, a, lim)
  }

  lemma TameOne(P: Code, s: nat, lim: Limits)
    requires s < |P| && InsLen(P, s) > 0 && TameAt(P, s, lim)
    ensures TameCode(P, s, s + InsLen(P, s), lim)
  {
    hide InsLen, TameAt;
    ScanOne(P, s);
    var e := s + InsLen(P, s);
    forall a: nat | StartIn(P, s, e, a)
      ensures a == s
    {
      OneStart(P, s, a);
    }
  }

  lemma TameJoin(P: Code, s: nat, m: nat, e: nat, lim: Limits)
    requires TameCode(P, s, m, lim) && TameCode(P, m, e, lim)
    ensures TameCode(P, s, e, lim)
  {
    hide InsLen, TameAt;
    ScanThrough(P, s, m, e);
    forall a: nat | StartIn(P, s, e, a)
      ensures TameAt(P, a, lim)
    {
      StartSplit(P, s, m, e, a);
    }
  }

  lemma TamePlain(P: Code, s: nat, g: Code, lim: Limits)
    requires At(P, s, g) && (g == [] || IsNoOp(g) || IsRun(g))
    ensures TameCode(P, s, s + |g|, lim)
  {
    if g != [] {
      assert P[s..s + |g|][0] == g[0] == P[s];
      assert |g| > 1 ==> P[s..s + |g|][1] == g[1] == P[s + 1];
      assert InsLen(P, s) == |g|;
      TameOne(P, s, lim);
    }
  }

  // Any jump but the one that closes a loop around a literal.
  lemma TameJump(P: Code, s: nat, op: byte, arg: int, lim: Limits)
    requires At(P, s, Op1(op, arg)) && IsJump(op) && -32768 <= arg <= MAX_OFFSET
    requires IsBack(op) ==> lim.loops
    requires IsBack(op) && 0 <= s + 3 + arg && s + 6 + arg < |P| && P[s + 6 + arg] == EXACTN ==> lim.literals
    ensures TameCode(P, s, s + 3, lim)
  {
    JumpAt(P, s, op, arg);
    TameOne(P, s, lim);
  }

  // ----- the code of a tame tree is tame -----

  lemma {:induction false} RegexIsTame(r: Regex, reg: nat, P: Code, s: nat, lim: Limits)
    requires TameRegex(r, lim) && SimpleRegex(r)
    requires |P| <= MAX_OFFSET && At(P, s, RegexCode(r, reg))
    ensures TameCode(P, s, s + |RegexCode(r, reg)|, lim)
    decreases r
  {
    hide At, BranchCode, TameCode, Op1, TameBranch, SimpleBranch;
    if r.Last? {
      BranchIsTame(r.branch, [], reg, P, s, lim);
    } else {
      OrLayout(P, s, r, reg);
      var first := BranchCode(r.branch, [], reg);
      var reg' := reg + GroupsB(r.branch);
      var b, f := s + 3, s + 3 + |first|;
      var m := f + 3;
      var e := s + |RegexCode(r, reg)|;
      InsideCode(P, m, RegexCode(r.rest, reg'));
      FirstAltInside(r.rest, reg');
      TameJump(P, s, ON_FAILURE_JUMP, |first| + 3, lim);
      BranchIsTame(r.branch, [], reg, P, b, lim);
      TameJump(P, f, JUMP_PAST_ALT, FirstAltEnd(r.rest, reg'), lim);
      RegexIsTame(r.rest, reg', P, m, lim);
      TameJoin(P, s, b, f, lim);
      TameJoin(P, s, f, m, lim);
      TameJoin(P, s, m, e, lim);
    }
  }

  lemma InsideCode(P: Code, s: nat, g: Code)
    requires At(P, s, g)
    ensures s + |g| <= |P|
  {
  }

  lemma {:induction false} BranchIsTame(b: Branch, run: Text, reg: nat, P: Code, s: nat, lim: Limits)
    requires TameBranch(b, lim) && SimpleBranch(b)
    requires |run| <= 255 && |P| <= MAX_OFFSET && At(P, s, BranchCode(b, run, reg))
    ensures TameCode(P, s, s + |BranchCode(b, run, reg)|, lim)
    decreases b
  {
    hide At, Flush, PieceCode, GroupsA, TameCode, TamePiece, SimplePiece;
    if b.Empty? {
      RunIsTame(run, P, s, lim);
    } else if IsLiteral(b.first) && 0 < |run| < 255 {
      BranchIsTame(b.rest, run + [b.first.atom.c], reg, P, s, lim);
    } else if IsLiteral(b.first) {
      var c := b.first.atom.c;
      AtParts(P, s, Flush(run), BranchCode(b.rest, [c], reg));
      RunIsTame(run, P, s, lim);
      BranchIsTame(b.rest, [c], reg, P, s + |Flush(run)|, lim);
      TameJoin(P, s, s + |Flush(run)|, s + |BranchCode(b, run, reg)|, lim);
    } else {
      var first := PieceCode(b.first, reg);
      var reg' := reg + GroupsA(b.first.atom);
      AtParts(P, s, Flush(run) + first, BranchCode(b.rest, [], reg'));
      AtParts(P, s, Flush(run), first);
      var x := s + |Flush(run)|;
      RunIsTame(run, P, s, lim);
      PieceIsTame(b.first, reg, P, x, lim);
      BranchIsTame(b.rest, [], reg', P, x + |first|, lim);
      TameJoin(P, s, x, x + |first|, lim);
      TameJoin(P, s, x + |first|, s + |BranchCode(b, run, reg)|, lim);
    }
  }

  lemma RunIsTame(run: Text, P: Code, s: nat, lim: Limits)
    requires |run| <= 255 && At(P, s, Flush(run))
    ensures TameCode(P, s, s + |Flush(run)|, lim)
  {
    hide TameCode, At;
    assert run != [] ==> IsRun(Flush(run));
    TamePlain(P, s, Flush(run), lim);
  }

  lemma {:induction false} PieceIsTame(p: Piece, reg: nat, P: Code, s: nat, lim: Limits)
    requires TamePiece(p, lim) && SimplePiece(p)
    requires |P| <= MAX_OFFSET && At(P, s, PieceCode(p, reg))
    ensures TameCode(P, s, s + |PieceCode(p, reg)|, lim)
    decreases p
  {
    hide At, AtomCode, RepCode, TameCode, Op1, TameAtom, SimpleAtom, ZeroOk, ManyOk;
    if p.Single? {
      AtomIsTame(p.atom, reg, P, s, lim);
    } else {
      var X := AtomCode(p.atom, reg);
      var zeroOk, manyOk := ZeroOk(p.ops), ManyOk(p.ops);
      RepLayout(P, s, X, zeroOk, manyOk);
      var l := s + if zeroOk then 0 else 3;
      var b := l + 3;
      var m := b + |X|;
      InsideCode(P, b, X);
      TameJump(P, l, ON_FAILURE_JUMP, |X| + if manyOk then 3 else 0, lim);
      AtomIsTame(p.atom, reg, P, b, lim);
      TameJoin(P, l, b, m, lim);
      var e := if manyOk then m + 3 else m;
      if manyOk {
        FirstByte(p.atom, reg, P, b);
        TameJump(P, m, MAYBE_POP_JUMP, -|X| - 6, lim);
        TameJoin(P, l, m, e, lim);
      }
      if !zeroOk {
        TameJump(P, s, DUMMY_FAILURE_JUMP, 3, lim);
        TameJoin(P, s, l, e, lim);
      }
    }
  }

  lemma FirstByte(a: Atom, reg: nat, P: Code, s: nat)
    requires OneChar(a) && At(P, s, AtomCode(a, reg))
    ensures s < |P| && |AtomCode(a, reg)| > 0 && (P[s] == EXACTN <==> a.Chr?)
  {
    var g := AtomCode(a, reg);
    assert P[s..s + |g|][0] == g[0] == P[s];
  }

  lemma {:induction false} NoBitsIsZero(x: nat, width: nat)
    requires x < Pow2(width) && forall k: nat | k < width :: !Bit(x, k)
    ensures x == 0
  {
    if width > 0 {
      assert !Bit(x, 0);
      forall k: nat | k < width - 1
        ensures !Bit(x / 2, k)
      {
        assert Bit(x, k + 1) == Bit(x / 2, k);
      }
      NoBitsIsZero(x / 2, width - 1);
    }
  }

  lemma LastByteIsZero(t: seq<byte>)
    requires |t| == 32 && forall c: byte | c >= 248 :: !MapHas(t, c)
    ensures t[31] == 0
  {
    assert Pow2(8) == 256;
    forall k: nat | k < 8
      ensures !Bit(t[31], k)
    {
      var c: byte := 248 + k;
      assert !MapHas(t, c);
    }
    NoBitsIsZero(t[31], 8);
  }

  // Without one of the last eight characters the trimmed bitmap is shorter than 32 bytes.
  lemma SmallBitmap(br: Bracket)
    requires !br.negated && forall c: byte | c >= 248 :: !BracketHas(br, c)
    ensures |Trim(BracketMap(br))| < 32
  {
    hide MapHas, BracketHas;
    var t := Trim(BracketMap(br));
    if |t| == 32 {
      LastByteIsZero(t);
    }
  }

  lemma {:induction false} AtomIsTame(a: Atom, reg: nat, P: Code, s: nat, lim: Limits)
    requires TameAtom(a, lim) && SimpleAtom(a)
    requires |P| <= MAX_OFFSET && At(P, s, AtomCode(a, reg))
    ensures TameCode(P, s, s + |AtomCode(a, reg)|, lim)
    decreases a
  {
    hide At, RegexCode, GroupCode, TameCode, TameRegex, SimpleRegex, GroupsR;
    if a.Group? {
      var body := RegexCode(a.r, reg + 1);
      var regnum, alternatives := reg + 1, a.r.Or?;
      GroupLayout(P, s, body, regnum, GroupsR(a.r), alternatives);
      var h := if regnum <= MAX_REGNUM then [START_MEMORY, regnum, GroupsR(a.r) % 256] else [];
      var d := if alternatives then [PUSH_DUMMY_FAILURE] else [];
      var e := if regnum <= MAX_REGNUM then [STOP_MEMORY, regnum, GroupsR(a.r) % 256] else [];
      var x := s + |h|;
      var y := x + |body|;
      TamePlain(P, s, h, lim);
      RegexIsTame(a.r, reg + 1, P, x, lim);
      TamePlain(P, y, d, lim);
      TamePlain(P, y + |d|, e, lim);
      TameJoin(P, s, x, y, lim);
      TameJoin(P, s, y, y + |d|, lim);
      TameJoin(P, s, y + |d|, y + |d| + |e|, lim);
    } else {
      CharIsTame(a, reg, P, s, lim);
    }
  }

  lemma CharIsTame(a: Atom, reg: nat, P: Code, s: nat, lim: Limits)
    requires OneChar(a) && TameAtom(a, lim) && At(P, s, AtomCode(a, reg))
    ensures TameCode(P, s, s + |AtomCode(a, reg)|, lim)
  {
    var g := AtomCode(a, reg);
    AtomEats(P, s, a, reg);
    assert P[s..s + |g|] == g;
    assert P[s] == g[0];
    if a.Set? {
      assert P[s + 1] == g[1];
      if !a.br.negated && !lim.large {
        SmallBitmap(a.br);
      }
    }
    hide TameCode, InsLen;
    TameOne(P, s, lim);
  }

  // The condition of the theorem about matching holds for every tame tree.
  lemma TameIsHarmless(r: Regex)
    requires WellFormed(r) && SimpleRegex(r) && Tame(r) && |RegexCode(r, 0)| <= MAX_OFFSET
    ensures Program(RegexCode(r, 0)) && Harmless(RegexCode(r, 0))
  {
    var P := RegexCode(r, 0);
    CodeIsWellFormed(r);
    assert At(P, 0, P);
    var lim := if TameRegex(r, NO_SETS) then NO_SETS else NO_LITERALS;
    RegexIsTame(r, 0, P, 0, lim);
    TameCodeIsHarmless(P, lim);
  }

  lemma TameCodeIsHarmless(P: Code, lim: Limits)
    requires Program(P) && TameCode(P, 0, |P|, lim) && !lim.large && !(lim.literals && lim.sets)
    ensures Harmless(P)
  {
    hide Program, MapHas, Place;
    forall m: nat | IsEnd(P, m)
      ensures !LostByCountByte(P, m) && !LostByFullMap(P, m)
    {
      LoopIs(P, m);
      AfterLoop(P, m);
      var b := Head(P, m) + 3;
      var p2 := SkipMemory(P, m + 3);
      assert TameAt(P, m, lim) && TameAt(P, b, lim);
      if p2 < |P| {
        PlaceStart(P, p2);
        assert TameAt(P, p2, lim);
      }
    }
  }
}
