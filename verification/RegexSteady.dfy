/**
 Patterns whose loops cannot be avoided: no `*' or `+' stands in an alternative or in an
 optional group. For these the matcher is right on all texts exactly when its code is free of
 the two defects.
 */
module RegexSteady {
  import opened Wrappers
  import opened RegexBytes
  import opened RegexSyntax
  import opened RegexGen
  import opened RegexNfa
  import opened RegexMeaning
  import opened RegexBlocks
  import opened RegexVm
  import opened RegexVmProof
  import opened RegexVmRun
  import opened RegexMatch
  import opened RegexTame
  import opened RegexLost

  predicate SteadyAtom(a: Atom) {
    a.Group? ==> SteadyRegex(a.r)
  }

  predicate SteadyPiece(p: Piece) {
    if p.Rep? && p.atom.Group? then TameAtom(p.atom, NO_LOOPS) else SteadyAtom(p.atom)
  }

  predicate SteadyBranch(b: Branch) {
    b.Then? ==> SteadyPiece(b.first) && SteadyBranch(b.rest)
  }

  predicate SteadyRegex(r: Regex) {
    if r.Or? then TameRegex(r, NO_LOOPS) else SteadyBranch(r.branch)
  }

  // ----- the loops of a block are not jumped over -----

  ghost predicate Across(P: Code, m: nat, a: nat)
    requires a < |P|
  {
    forall x | x in Edges(P, a) && x > m :: a == Head(P, m) && x == m + 3
  }

  ghost predicate Straight(P: Code, s: nat, e: nat) {
    forall m: nat, a: nat | EndsLoop(P, s, e, m) && StartIn(P, s, e, a) && a <= m :: Across(P, m, a)
  }

  lemma StraightJoin(P: Code, s: nat, m: nat, e: nat)
    requires Block(P, s, m) && Block(P, m, e) && Straight(P, s, m) && Straight(P, m, e)
    ensures Block(P, s, e) && Straight(P, s, e)
  {
    hide Edges, InsLen, Entered, LoopShape;
    JoinBlocks(P, s, m, e);
    forall k: nat, a: nat | EndsLoop(P, s, e, k) && StartIn(P, s, e, a) && a <= k
      ensures Across(P, k, a)
    {
      StartSplit(P, s, m, e, k);
      StartSplit(P, s, m, e, a);
      if a < m <= k {
        assert Closed(P, s, m, a);
      }
    }
  }

  // A block without loops.
  lemma StraightNone(P: Code, s: nat, e: nat)
    requires TameCode(P, s, e, NO_LOOPS)
    ensures Straight(P, s, e)
  {
    hide InsLen;
    forall m: nat | StartIn(P, s, e, m)
      ensures !IsBack(P[m])
    {
      assert TameAt(P, m, NO_LOOPS);
    }
  }

  // One loop: a failure jump, an instruction, the jump back; before them, for `+', a jump to
  // the instruction.
  lemma StraightLoop(P: Code, s: nat, l: nat, m: nat)
    requires s <= l && l + 3 < m && m + 3 <= |P|
    requires s == l || (s + 3 == l && InsLen(P, s) == 3 && P[s] == DUMMY_FAILURE_JUMP && Target(P, s) == l + 3)
    requires InsLen(P, l) == 3 && P[l] == ON_FAILURE_JUMP && Target(P, l) == m + 3
    requires InsLen(P, l + 3) == m - l - 3 && Consumes(P[l + 3])
    requires InsLen(P, m) == 3 && IsBack(P[m]) && Target(P, m) == l
    ensures Straight(P, s, m + 3)
  {
    var e := m + 3;
    forall a: nat | StartIn(P, s, e, a)
      ensures a == s || a == l || a == l + 3 || a == m
    {
      LoopStarts(P, s, l, m, a);
    }
    forall k: nat, a: nat | EndsLoop(P, s, e, k) && StartIn(P, s, e, a) && a <= k
      ensures Across(P, k, a)
    {
      assert k == m;
    }
  }

  lemma LoopStarts(P: Code, s: nat, l: nat, m: nat, a: nat)
    requires s <= l && l + 3 < m && m + 3 <= |P| && (s == l || (s + 3 == l && InsLen(P, s) == 3))
    requires InsLen(P, l) == 3 && InsLen(P, l + 3) == m - l - 3 && InsLen(P, m) == 3 && StartIn(P, s, m + 3, a)
    ensures a == s || a == l || a == l + 3 || a == m
  {
    hide InsLen;
    ScanOne(P, s);
    ScanOne(P, l);
    ScanOne(P, l + 3);
    ScanThrough(P, l, l + 3, m);
    ScanThrough(P, s, l, l + 3);
    ScanThrough(P, s, l + 3, m);
    if a < m && a > l + 3 {
      ScanNext(P, s, l + 3, a);
    } else if l < a < l + 3 {
      ScanNext(P, s, l, a);
    } else if s < a < l {
      ScanNext(P, s, s, a);
    } else if a > m {
      ScanNext(P, s, m, a);
    }
  }

  // ----- the code of a steady tree -----

  lemma {:induction false} RegexIsStraight(r: Regex, reg: nat, P: Code, s: nat)
    requires WellFormed(r) && SimpleRegex(r) && SteadyRegex(r) && |P| <= MAX_OFFSET && At(P, s, RegexCode(r, reg))
    ensures var e := s + |RegexCode(r, reg)|; Block(P, s, e) && Straight(P, s, e)
    decreases r
  {
    hide At, BranchCode, Block, Straight, TameCode, SimpleBranch, TameBranch, WellFormedBranch, Op1;
    if r.Or? {
      RegexBlock(r, reg, P, s);
      RegexIsTame(r, reg, P, s, NO_LOOPS);
      StraightNone(P, s, s + |RegexCode(r, reg)|);
    } else {
      BranchIsStraight(r.branch, [], reg, P, s);
    }
  }

  lemma {:induction false} BranchIsStraight(b: Branch, run: Text, reg: nat, P: Code, s: nat)
    requires WellFormedBranch(b) && SimpleBranch(b) && SteadyBranch(b)
    requires |run| <= 255 && |P| <= MAX_OFFSET && At(P, s, BranchCode(b, run, reg))
    ensures var e := s + |BranchCode(b, run, reg)|; Block(P, s, e) && Straight(P, s, e)
    decreases b
  {
    hide At, Flush, PieceCode, GroupsA, Block, Straight, SteadyPiece, SimplePiece, WellFormedPiece;
    if b.Empty? {
      RunIsStraight(run, P, s);
    } else if IsLiteral(b.first) && 0 < |run| < 255 {
      BranchIsStraight(b.rest, run + [b.first.atom.c], reg, P, s);
    } else if IsLiteral(b.first) {
      var c := b.first.atom.c;
      AtParts(P, s, Flush(run), BranchCode(b.rest, [c], reg));
      RunIsStraight(run, P, s);
      BranchIsStraight(b.rest, [c], reg, P, s + |Flush(run)|);
      StraightJoin(P, s, s + |Flush(run)|, s + |BranchCode(b, run, reg)|);
    } else {
      var first := PieceCode(b.first, reg);
      var reg' := reg + GroupsA(b.first.atom);
      AtParts(P, s, Flush(run) + first, BranchCode(b.rest, [], reg'));
      AtParts(P, s, Flush(run), first);
      var x := s + |Flush(run)|;
      RunIsStraight(run, P, s);
      PieceIsStraight(b.first, reg, P, x);
      BranchIsStraight(b.rest, [], reg', P, x + |first|);
      StraightJoin(P, s, x, x + |first|);
      StraightJoin(P, s, x + |first|, s + |BranchCode(b, run, reg)|);
    }
  }

  lemma RunIsStraight(run: Text, P: Code, s: nat)
    requires |run| <= 255 && At(P, s, Flush(run))
    ensures Block(P, s, s + |Flush(run)|) && Straight(P, s, s + |Flush(run)|)
  {
    hide Block, At, Straight;
    assert run != [] ==> IsRun(Flush(run));
    PlainBlock(P, s, Flush(run));
    TamePlain(P, s, Flush(run), NO_LOOPS);
    StraightNone(P, s, s + |Flush(run)|);
  }

  lemma {:induction false} PieceIsStraight(p: Piece, reg: nat, P: Code, s: nat)
    requires WellFormedPiece(p) && SimplePiece(p) && SteadyPiece(p)
    requires |P| <= MAX_OFFSET && At(P, s, PieceCode(p, reg))
    ensures var e := s + |PieceCode(p, reg)|; Block(P, s, e) && Straight(P, s, e)
    decreases p
  {
    hide At, AtomCode, RepCode, Block, Straight, TameAtom, SimpleAtom, ZeroOk, ManyOk, SteadyAtom;
    if p.Single? {
      AtomIsStraight(p.atom, reg, P, s);
    } else {
      PieceBlock(p, reg, P, s);
      if ManyOk(p.ops) {
        LoopIsStraight(p.atom, reg, P, s, ZeroOk(p.ops));
      } else {
        OptionIsTame(p);
        PieceIsTame(p, reg, P, s, NO_LOOPS);
        StraightNone(P, s, s + |PieceCode(p, reg)|);
      }
    }
  }

  lemma OptionIsTame(p: Piece)
    requires SteadyPiece(p) && p.Rep? && !ManyOk(p.ops)
    ensures TamePiece(p, NO_LOOPS)
  {
  }

  lemma LoopIsStraight(a: Atom, reg: nat, P: Code, s: nat, zeroOk: bool)
    requires OneChar(a) && |P| <= MAX_OFFSET && At(P, s, RepCode(AtomCode(a, reg), zeroOk, true))
    ensures Straight(P, s, s + |RepCode(AtomCode(a, reg), zeroOk, true)|)
  {
    hide At, AtomCode, RepCode, Straight, Op1, InsLen, AtomHas, Eats;
    var X := AtomCode(a, reg);
    RepLayout(P, s, X, zeroOk, true);
    var l := s + if zeroOk then 0 else 3;
    var m := l + 3 + |X|;
    AtomEats(P, l + 3, a, reg);
    if !zeroOk {
      JumpAt(P, s, DUMMY_FAILURE_JUMP, 3);
    }
    InsideCode(P, l + 3, X);
    JumpAt(P, l, ON_FAILURE_JUMP, |X| + 3);
    JumpAt(P, m, MAYBE_POP_JUMP, -|X| - 6);
    JumpFits(P, m);
    StraightLoop(P, s, l, m);
  }

  lemma JumpFits(P: Code, m: nat)
    requires m < |P| && InsLen(P, m) == 3
    ensures m + 3 <= |P|
  {
  }

  lemma {:induction false} AtomIsStraight(a: Atom, reg: nat, P: Code, s: nat)
    requires WellFormedAtom(a) && SimpleAtom(a) && SteadyAtom(a) && |P| <= MAX_OFFSET && At(P, s, AtomCode(a, reg))
    ensures var e := s + |AtomCode(a, reg)|; Block(P, s, e) && Straight(P, s, e)
    decreases a
  {
    hide At, RegexCode, GroupCode, Block, Straight, TameCode, TameRegex, SteadyRegex, SimpleRegex, GroupsR,
      WellFormed, WellFormedBracket, Closed, EndsLoop, LoopShape, Entered, Across, BranchCode, GroupsB, Op1,
      FirstAltEnd;
    if a.Group? {
      var body := RegexCode(a.r, reg + 1);
      var regnum, alternatives := reg + 1, a.r.Or?;
      GroupLayout(P, s, body, regnum, GroupsR(a.r), alternatives);
      var h := if regnum <= MAX_REGNUM then [START_MEMORY, regnum, GroupsR(a.r) % 256] else [];
      var d := if alternatives then [PUSH_DUMMY_FAILURE] else [];
      var e := if regnum <= MAX_REGNUM then [STOP_MEMORY, regnum, GroupsR(a.r) % 256] else [];
      var x := s + |h|;
      var y := x + |body|;
      NoOpIsStraight(P, s, h);
      RegexIsStraight(a.r, reg + 1, P, x);
      NoOpIsStraight(P, y, d);
      NoOpIsStraight(P, y + |d|, e);
      StraightJoin(P, s, x, y);
      StraightJoin(P, s, y, y + |d|);
      StraightJoin(P, s, y + |d|, y + |d| + |e|);
    } else {
      CharBlock(a, reg, P, s);
      CharIsTame(a, reg, P, s, Limits(false, true, true, true));
      StraightNone(P, s, s + |AtomCode(a, reg)|);
    }
  }

  lemma NoOpIsStraight(P: Code, s: nat, g: Code)
    requires At(P, s, g) && (g == [] || IsNoOp(g))
    ensures Block(P, s, s + |g|) && Straight(P, s, s + |g|)
  {
    hide Block, Straight;
    PlainBlock(P, s, g);
    TamePlain(P, s, g, NO_LOOPS);
    StraightNone(P, s, s + |g|);
  }

  // ----- every tree has words -----

  lemma AtomWord(a: Atom) returns (c: byte)
    requires OneChar(a) && WellFormedAtom(a)
    ensures [c] in AtomLang(a)
  {
    match a
    case Chr(d) => c := d;
    case Dot => c := 1;
    case Set(br) =>
      c := BracketChar(br);
  }

  // A negated set has the null character, which no pattern can name.
  lemma BracketChar(br: Bracket) returns (c: byte)
    requires WellFormedBracket(br)
    ensures BracketHas(br, c)
  {
    if br.negated {
      c := 0;
      assert forall it | it in br.items :: WellFormedItem(it) ==> !ItemHas(it, 0);
    } else if br.closeFirst {
      c := ']' as int;
    } else if br.hyphenLast {
      c := '-' as int;
    } else {
      c := ItemStart(br.items[0]);
      assert br.items[0] in br.items;
    }
  }

  lemma {:induction false} RegexWord(r: Regex) returns (w: Text)
    requires WellFormed(r)
    ensures w in RegexLang(r)
    decreases r
  {
    hide InCat;
    w := BranchWord(r.branch);
  }

  lemma {:induction false} BranchWord(b: Branch) returns (w: Text)
    requires WellFormedBranch(b)
    ensures w in BranchLang(b)
    decreases b
  {
    hide InCat;
    if b.Empty? {
      w := [];
    } else {
      var u := PieceWord(b.first);
      var v := BranchWord(b.rest);
      w := u + v;
      CatIntro(PieceLang(b.first), BranchLang(b.rest), u, v);
    }
  }

  lemma {:induction false} PieceWord(p: Piece) returns (w: Text)
    requires WellFormedPiece(p)
    ensures w in PieceLang(p)
    decreases p
  {
    hide InCat, InStar, AtomLang, WellFormedAtom, ApplyOps;
    if p.atom.Group? {
      w := GroupWord(p.atom);
    } else {
      var c := AtomWord(p.atom);
      w := [c];
    }
    if p.Rep? {
      var A := AtomLang(p.atom);
      OpsCollapse(A, p.ops);
      StarOne(A, w);
    }
  }

  lemma {:induction false} GroupWord(a: Atom) returns (w: Text)
    requires a.Group? && WellFormedAtom(a)
    ensures w in AtomLang(a)
    decreases a, 0
  {
    w := RegexWord(a.r);
  }

  // ----- the exact condition -----

  lemma SteadyLoops(r: Regex, m: nat)
    requires WellFormed(r) && SimpleRegex(r) && SteadyRegex(r) && |RegexCode(r, 0)| <= MAX_OFFSET
    requires Program(RegexCode(r, 0)) && IsEnd(RegexCode(r, 0), m)
    ensures NoWayRound(RegexCode(r, 0), m)
  {
    hide RegexCode, Program, Edges, Head, WellFormedBranch, SimpleBranch, TameRegex, SteadyBranch, BranchCode,
      GroupsB, Op1, FirstAltEnd, WellFormedCode, Simple, EndsLoop, Block, InsLen, Target, IsJump;
    var P := RegexCode(r, 0);
    assert At(P, 0, P);
    RegexIsStraight(r, 0, P, 0);
    hide RegexCode, Program, Edges, SteadyRegex, SimpleRegex, WellFormed, IsBack;
    forall a: nat, x | Start(P, a) && a <= m && x in Edges(P, a) && x > m
      ensures a == Head(P, m) && x == m + 3
    {
      assert Across(P, m, a);
    }
  }

  // What the matcher returns from pos is the end of the longest match, or that there is none.
  ghost predicate Right(P: Code, A: Lang, t: Text, pos: nat)
    requires Program(P) && pos <= |t|
  {
    match MatchEnd(P, t, pos)
    case Some(e) => LongestPrefix(A, t, pos, e)
    case None => NoPrefix(A, t, pos)
  }

  ghost predicate AlwaysRight(P: Code, A: Lang)
    requires Program(P)
  {
    forall t: Text, pos: nat | pos <= |t| :: Right(P, A, t, pos)
  }

  // A loop with a wrong decision that nothing leads round: on some text of the language the
  // matcher finds nothing.
  lemma DefectShows(r: Regex, m: nat) returns (t: Text)
    requires WellFormed(r) && |RegexCode(r, 0)| <= MAX_OFFSET
    requires Program(RegexCode(r, 0)) && IsEnd(RegexCode(r, 0), m) && NoWayRound(RegexCode(r, 0), m)
    requires LostByCountByte(RegexCode(r, 0), m) || LostByFullMap(RegexCode(r, 0), m)
    ensures t in RegexLang(r) && MatchEnd(RegexCode(r, 0), t, 0) == None
  {
    var P := RegexCode(r, 0);
    var w := RegexWord(r);
    CodeMeansLanguage(r, w, 0, |w|);
    assert w[0..|w|] == w;
    hide RegexCode, RegexLang, WellFormed, LostByCountByte, LostByFullMap, NoWayRound, Acc, Trap, IsEnd, Program;
    var i;
    t, i := TrapExists(P, m, w);
    TrapFindsNothing(P, m, t, i);
    CodeMeansLanguage(r, t, 0, |t|);
    assert t[0..|t|] == t;
  }

  // For patterns whose loops cannot be avoided: right on all texts if and only if the code is
  // free of the defects.
  lemma SteadyExact(r: Regex)
    requires WellFormed(r) && SimpleRegex(r) && SteadyRegex(r) && |RegexCode(r, 0)| <= MAX_OFFSET
    ensures Program(RegexCode(r, 0))
    ensures Harmless(RegexCode(r, 0)) <==> AlwaysRight(RegexCode(r, 0), RegexLang(r))
  {
    hide SimpleRegex, IsEnd, LostByCountByte, LostByFullMap, WellFormedBranch, SimpleBranch, TameRegex, SteadyBranch,
      GroupsB, FirstAltEnd, WellFormedCode, Simple, BranchLang, Place, Start, MatchEnd, LongestPrefix, EndsLoop,
      SkipMemory, MapHas, MapAt;
    var P := RegexCode(r, 0);
    CodeIsWellFormed(r);
    hide RegexCode, RegexLang, WellFormed, SimpleRegex, SteadyRegex, LostByCountByte, LostByFullMap, NoWayRound, IsEnd, Program;
    if Harmless(P) {
      forall t: Text, pos: nat | pos <= |t|
        ensures Right(P, RegexLang(r), t, pos)
      {
        MatchesLongest(r, t, pos);
      }
    } else {
      var m: nat :| IsEnd(P, m) && (LostByCountByte(P, m) || LostByFullMap(P, m));
      SteadyLoops(r, m);
      var t := DefectShows(r, m);
      assert t[0..|t|] == t && !Right(P, RegexLang(r), t, 0);
    }
  }
}
