/**
 Compiled code has no empty jump to an `on_failure_jump'. The fastmap relies on it: it takes
 a jump that does not go forward for the end of a loop.
 */
module RegexQuiet {
  import opened RegexBytes
  import opened RegexSyntax
  import opened RegexGen
  import opened RegexNfa
  import opened RegexMeaning
  import opened RegexBlocks

  // A jump to the instruction after it.
  predicate EmptyJump(P: Code, a: nat)
    requires a < |P|
  {
    InsLen(P, a) > 0 && IsJump(P[a]) && P[a] != ON_FAILURE_JUMP && Target(P, a) == a + 3
  }

  // Inside the block, empty jumps lead to no failure jump; whether one may end the block.
  ghost predicate Quiet(P: Code, s: nat, e: nat, mayEnd: bool) {
    && s <= e <= |P| && Scan(P, s, e)
    && forall a: nat | StartIn(P, s, e, a) && EmptyJump(P, a) ::
         (mayEnd && a + 3 == e) || (a + 3 < e && P[a + 3] != ON_FAILURE_JUMP)
  }

  lemma QuietNone(P: Code, s: nat)
    requires s <= |P|
    ensures Quiet(P, s, s, false)
  {
  }

  lemma QuietOne(P: Code, s: nat)
    requires s < |P| && InsLen(P, s) > 0 && !EmptyJump(P, s)
    ensures Quiet(P, s, s + InsLen(P, s), false)
  {
    hide InsLen, EmptyJump;
    ScanOne(P, s);
    var e := s + InsLen(P, s);
    forall a: nat | StartIn(P, s, e, a)
      ensures a == s
    {
      OneStart(P, s, a);
    }
  }

  lemma QuietJoin(P: Code, s: nat, m: nat, e: nat, mayEnd: bool, later: bool)
    requires Quiet(P, s, m, mayEnd) && Quiet(P, m, e, later)
    requires mayEnd ==> (m < e && P[m] != ON_FAILURE_JUMP) || (m == e && later)
    ensures Quiet(P, s, e, later)
  {
    hide InsLen, EmptyJump;
    ScanThrough(P, s, m, e);
    forall a: nat | StartIn(P, s, e, a) && EmptyJump(P, a)
      ensures (later && a + 3 == e) || (a + 3 < e && P[a + 3] != ON_FAILURE_JUMP)
    {
      StartSplit(P, s, m, e, a);
    }
  }

  // At most one instruction that is no jump.
  lemma QuietPlain(P: Code, s: nat, g: Code)
    requires At(P, s, g) && (g == [] || IsNoOp(g) || IsRun(g))
    ensures Quiet(P, s, s + |g|, false)
  {
    if g == [] {
      QuietNone(P, s);
    } else {
      assert P[s..s + |g|][0] == g[0] == P[s];
      assert |g| > 1 ==> P[s..s + |g|][1] == g[1] == P[s + 1];
      assert InsLen(P, s) == |g|;
      QuietOne(P, s);
    }
  }

  lemma QuietJump(P: Code, s: nat, op: byte, arg: int)
    requires At(P, s, Op1(op, arg)) && IsJump(op) && -32768 <= arg <= MAX_OFFSET
    requires arg != 0 || op == ON_FAILURE_JUMP
    ensures Quiet(P, s, s + 3, false)
  {
    JumpAt(P, s, op, arg);
    QuietOne(P, s);
  }

  // A branch without code: nothing, or groups past the last register with nothing in them. A
  // group with alternatives has code.
  predicate NoCode(b: Branch, reg: nat)
    decreases b
  {
    b.Then? ==>
      && b.first.Single? && b.first.atom.Group? && reg + 1 > MAX_REGNUM
      && b.first.atom.r.Last? && NoCode(b.first.atom.r.branch, reg + 1)
      && NoCode(b.rest, reg + GroupsA(b.first.atom))
  }

  // Several alternatives, the last of them without code.
  predicate EndsEmpty(r: Regex, reg: nat)
    decreases r
  {
    r.Or? && var reg' := reg + GroupsB(r.branch);
             if r.rest.Or? then EndsEmpty(r.rest, reg') else NoCode(r.rest.branch, reg')
  }

  lemma {:induction false} NoCodeIs(b: Branch, reg: nat)
    requires WellFormedBranch(b)
    ensures NoCode(b, reg) <==> |BranchCode(b, [], reg)| == 0
    decreases b
  {
    if b.Then? && !IsLiteral(b.first) {
      PieceHasCode(b.first, reg);
      PieceFirst(b, reg);
      hide PieceCode, IsLiteral, BranchCode, GroupsA;
      NoCodeIs(b.rest, reg + GroupsA(b.first.atom));
      if b.first.atom.Group? && b.first.atom.r.Last? {
        InGroup(b.first);
        NoCodeIs(b.first.atom.r.branch, reg + 1);
      }
    } else if b.Then? {
      LiteralHasCode(b.rest, [b.first.atom.c], reg);
    }
  }

  lemma InGroup(p: Piece)
    requires WellFormedPiece(p) && p.atom.Group?
    ensures WellFormed(p.atom.r)
  {
  }

  lemma PieceFirst(b: Branch, reg: nat)
    requires b.Then? && !IsLiteral(b.first)
    ensures |BranchCode(b, [], reg)| == |PieceCode(b.first, reg)| + |BranchCode(b.rest, [], reg + GroupsA(b.first.atom))|
  {
  }

  lemma PieceHasCode(p: Piece, reg: nat)
    requires WellFormedPiece(p) && !IsLiteral(p)
    ensures |PieceCode(p, reg)| == 0 <==>
      && p.Single? && p.atom.Group? && reg + 1 > MAX_REGNUM
      && p.atom.r.Last? && |BranchCode(p.atom.r.branch, [], reg + 1)| == 0
  {
    if p.Rep? {
      assert |PieceCode(p, reg)| >= 3;
    } else if p.atom.Group? {
      var r := p.atom.r;
      var body := RegexCode(r, reg + 1);
      assert PieceCode(p, reg) == GroupCode(body, reg + 1, GroupsR(r), r.Or?);
      assert r.Last? ==> body == BranchCode(r.branch, [], reg + 1);
      assert |GroupCode(body, reg + 1, GroupsR(r), r.Or?)| >= |body| + if r.Or? then 1 else 0;
    }
  }

  lemma {:induction false} LiteralHasCode(b: Branch, run: Text, reg: nat)
    requires 0 < |run| <= 255
    ensures |BranchCode(b, run, reg)| > 0
    decreases b
  {
    if b.Then? && IsLiteral(b.first) && |run| < 255 {
      LiteralHasCode(b.rest, run + [b.first.atom.c], reg);
    }
  }

  // The first alternative of r is at an end only when r has one alternative, without code.
  lemma FirstEnd(r: Regex, reg: nat)
    requires WellFormedBranch(r.branch)
    ensures FirstAltEnd(r, reg) == 0 <==> r.Last? && NoCode(r.branch, reg)
    ensures r.Last? ==> |RegexCode(r, reg)| == FirstAltEnd(r, reg)
  {
    NoCodeIs(r.branch, reg);
    hide NoCode, BranchCode;
  }

  lemma {:induction false} QuietRegex(r: Regex, reg: nat, P: Code, s: nat)
    requires WellFormed(r) && |P| <= MAX_OFFSET && At(P, s, RegexCode(r, reg))
    ensures Quiet(P, s, s + |RegexCode(r, reg)|, EndsEmpty(r, reg))
    decreases r
  {
    hide At, BranchCode, Quiet, Op1, StartIn, NoCode, FirstAltEnd, RegexCode;
    if r.Last? {
      FirstEnd(r, reg);
      LastCode(r, reg);
      QuietBranch(r.branch, [], reg, P, s);
    } else {
      OrLayout(P, s, r, reg);
      var first := BranchCode(r.branch, [], reg);
      var reg' := reg + GroupsB(r.branch);
      var b, f := s + 3, s + 3 + |first|;
      var m := f + 3;
      var e := s + |RegexCode(r, reg)|;
      Inside(P, m, RegexCode(r.rest, reg'));
      QuietJump(P, s, ON_FAILURE_JUMP, |first| + 3);
      QuietBranch(r.branch, [], reg, P, b);
      QuietRegex(r.rest, reg', P, m);
      QuietJoin(P, s, b, f, false, false);
      FirstAltInside(r.rest, reg');
      FirstEnd(r.rest, reg');
      if FirstAltEnd(r.rest, reg') > 0 {
        QuietJump(P, f, JUMP_PAST_ALT, FirstAltEnd(r.rest, reg'));
        QuietJoin(P, f, m, e, false, EndsEmpty(r.rest, reg'));
        QuietJoin(P, s, f, e, false, EndsEmpty(r.rest, reg'));
      } else {
        QuietLast(P, f);
        QuietJoin(P, s, f, e, false, true);
      }
    }
  }

  lemma LastCode(r: Regex, reg: nat)
    requires r.Last?
    ensures RegexCode(r, reg) == BranchCode(r.branch, [], reg)
  {
  }

  lemma Inside(P: Code, s: nat, g: Code)
    requires At(P, s, g)
    ensures s + |g| <= |P|
  {
  }

  lemma QuietWeaker(P: Code, s: nat, e: nat, mayEnd: bool)
    requires Quiet(P, s, e, mayEnd)
    ensures Quiet(P, s, e, true)
  {
  }

  lemma QuietLast(P: Code, f: nat)
    requires At(P, f, Op1(JUMP_PAST_ALT, 0))
    ensures Quiet(P, f, f + 3, true)
  {
    JumpAt(P, f, JUMP_PAST_ALT, 0);
    hide InsLen;
    ScanOne(P, f);
    var e := f + 3;
    forall a: nat | StartIn(P, f, e, a)
      ensures a == f
    {
      OneStart(P, f, a);
    }
  }

  lemma {:induction false} QuietBranch(b: Branch, run: Text, reg: nat, P: Code, s: nat)
    requires WellFormedBranch(b) && |run| <= 255 && |P| <= MAX_OFFSET && At(P, s, BranchCode(b, run, reg))
    ensures Quiet(P, s, s + |BranchCode(b, run, reg)|, false)
    decreases b
  {
    hide At, Flush, PieceCode, GroupsA, Quiet;
    if b.Empty? {
      QuietRun(run, P, s);
    } else if IsLiteral(b.first) && 0 < |run| < 255 {
      QuietBranch(b.rest, run + [b.first.atom.c], reg, P, s);
    } else if IsLiteral(b.first) {
      var c := b.first.atom.c;
      AtParts(P, s, Flush(run), BranchCode(b.rest, [c], reg));
      QuietRun(run, P, s);
      QuietBranch(b.rest, [c], reg, P, s + |Flush(run)|);
      QuietJoin(P, s, s + |Flush(run)|, s + |BranchCode(b, run, reg)|, false, false);
    } else {
      var first := PieceCode(b.first, reg);
      var reg' := reg + GroupsA(b.first.atom);
      AtParts(P, s, Flush(run) + first, BranchCode(b.rest, [], reg'));
      AtParts(P, s, Flush(run), first);
      var x := s + |Flush(run)|;
      QuietRun(run, P, s);
      QuietPiece(b.first, reg, P, x);
      QuietBranch(b.rest, [], reg', P, x + |first|);
      QuietJoin(P, s, x, x + |first|, false, false);
      QuietJoin(P, s, x + |first|, s + |BranchCode(b, run, reg)|, false, false);
    }
  }

  lemma QuietRun(run: Text, P: Code, s: nat)
    requires |run| <= 255 && At(P, s, Flush(run))
    ensures Quiet(P, s, s + |Flush(run)|, false)
  {
    hide Quiet, At;
    assert run != [] ==> IsRun(Flush(run));
    QuietPlain(P, s, Flush(run));
  }

  lemma {:induction false} QuietPiece(p: Piece, reg: nat, P: Code, s: nat)
    requires WellFormedPiece(p) && |P| <= MAX_OFFSET && At(P, s, PieceCode(p, reg))
    ensures Quiet(P, s, s + |PieceCode(p, reg)|, false)
    decreases p
  {
    hide At, AtomCode, RepCode, Quiet, Op1;
    if p.Single? {
      QuietAtom(p.atom, reg, P, s);
    } else {
      var X := AtomCode(p.atom, reg);
      var zeroOk, manyOk := ZeroOk(p.ops), ManyOk(p.ops);
      RepLayout(P, s, X, zeroOk, manyOk);
      var l := s + if zeroOk then 0 else 3;
      var b := l + 3;
      var m := b + |X|;
      Inside(P, b, X);
      QuietJump(P, l, ON_FAILURE_JUMP, |X| + if manyOk then 3 else 0);
      QuietAtom(p.atom, reg, P, b);
      QuietJoin(P, l, b, m, false, false);
      var e := if manyOk then m + 3 else m;
      if manyOk {
        QuietJump(P, m, MAYBE_POP_JUMP, -|X| - 6);
        QuietJoin(P, l, m, e, false, false);
      }
      if !zeroOk {
        QuietJump(P, s, DUMMY_FAILURE_JUMP, 3);
        QuietJoin(P, s, l, e, false, false);
      }
    }
  }

  lemma {:induction false} QuietAtom(a: Atom, reg: nat, P: Code, s: nat)
    requires WellFormedAtom(a) && |P| <= MAX_OFFSET && At(P, s, AtomCode(a, reg))
    ensures Quiet(P, s, s + |AtomCode(a, reg)|, false)
    decreases a
  {
    hide At, RegexCode, GroupCode, Quiet;
    if a.Group? {
      var body := RegexCode(a.r, reg + 1);
      GroupLayout(P, s, body, reg + 1, GroupsR(a.r), a.r.Or?);
      var x := s + GroupHead(reg + 1);
      QuietRegex(a.r, reg + 1, P, x);
      if a.r.Or? {
        QuietWeaker(P, x, x + |body|, EndsEmpty(a.r, reg + 1));
      }
      QuietGroup(P, s, body, reg + 1, GroupsR(a.r), a.r.Or?);
    } else {
      QuietChar(a, reg, P, s);
    }
  }

  lemma QuietChar(a: Atom, reg: nat, P: Code, s: nat)
    requires OneChar(a) && At(P, s, AtomCode(a, reg))
    ensures Quiet(P, s, s + |AtomCode(a, reg)|, false)
  {
    hide Quiet, AtomCode, At;
    AtomEats(P, s, a, reg);
    QuietOne(P, s);
  }

  lemma QuietGroup(P: Code, s: nat, body: Code, regnum: nat, inner: nat, alternatives: bool)
    requires At(P, s, GroupCode(body, regnum, inner, alternatives))
    requires
      var x := s + GroupHead(regnum);
      Quiet(P, x, x + |body|, alternatives)
    ensures Quiet(P, s, s + |GroupCode(body, regnum, inner, alternatives)|, false)
  {
    hide At, GroupCode, Quiet, Scan, StartIn, EmptyJump;
    GroupLayout(P, s, body, regnum, inner, alternatives);
    var h := if regnum <= MAX_REGNUM then [START_MEMORY, regnum, inner % 256] else [];
    var d := if alternatives then [PUSH_DUMMY_FAILURE] else [];
    var e := if regnum <= MAX_REGNUM then [STOP_MEMORY, regnum, inner % 256] else [];
    var x := s + |h|;
    var y := x + |body|;
    if alternatives {
      assert P[y..y + 1][0] == P[y] == PUSH_DUMMY_FAILURE;
    }
    hide Quiet, At, GroupCode;
    QuietPlain(P, s, h);
    QuietPlain(P, y, d);
    QuietPlain(P, y + |d|, e);
    QuietJoin(P, s, x, y, false, alternatives);
    QuietJoin(P, s, y, y + |d|, alternatives, false);
    QuietJoin(P, s, y + |d|, y + |d| + |e|, false, false);
  }

  // An empty jump leads to the end of the code.
  ghost predicate JumpsToEnd(P: Code) {
    exists a: nat | StartIn(P, 0, |P|, a) :: EmptyJump(P, a) && a + 3 == |P|
  }

  // The block ends with an empty jump.
  predicate EndsInJump(P: Code, s: nat, e: nat, f: nat) {
    StartIn(P, s, e, f) && EmptyJump(P, f) && f + 3 == e
  }

  // The jump after the last alternative but one.
  lemma {:induction false} LastJump(r: Regex, reg: nat, P: Code, s: nat) returns (f: nat)
    requires WellFormed(r) && |P| <= MAX_OFFSET && At(P, s, RegexCode(r, reg)) && EndsEmpty(r, reg)
    ensures EndsInJump(P, s, s + |RegexCode(r, reg)|, f)
    decreases r
  {
    hide At, BranchCode, Op1, NoCode, RegexCode, FirstAltEnd, InsLen, EmptyJump;
    OrLayout(P, s, r, reg);
    var first := BranchCode(r.branch, [], reg);
    var reg' := reg + GroupsB(r.branch);
    f := s + 3 + |first|;
    Inside(P, f + 3, RegexCode(r.rest, reg'));
    FirstEnd(r.rest, reg');
    AltScan(r, reg, P, s);
    if r.rest.Or? {
      var m := f + 3;
      f := LastJump(r.rest, reg', P, m);
      ScanThrough(P, s, m, f);
    } else {
      IsEmptyJump(P, f);
    }
  }

  lemma IsEmptyJump(P: Code, f: nat)
    requires At(P, f, Op1(JUMP_PAST_ALT, 0))
    ensures EmptyJump(P, f) && InsLen(P, f) == 3
  {
    JumpAt(P, f, JUMP_PAST_ALT, 0);
  }

  // The instructions of the first alternative, with the jumps around it.
  lemma AltScan(r: Regex, reg: nat, P: Code, s: nat)
    requires WellFormed(r) && r.Or? && |P| <= MAX_OFFSET && At(P, s, RegexCode(r, reg))
    ensures var f := s + 3 + |BranchCode(r.branch, [], reg)|; Scan(P, s, f) && Scan(P, s, f + 3)
  {
    hide At, BranchCode, Op1, RegexCode, FirstAltEnd, InsLen, EmptyJump;
    OrLayout(P, s, r, reg);
    var b := s + 3;
    var f := b + |BranchCode(r.branch, [], reg)|;
    FirstAltInside(r.rest, reg + GroupsB(r.branch));
    JumpAt(P, s, ON_FAILURE_JUMP, |BranchCode(r.branch, [], reg)| + 3);
    JumpAt(P, f, JUMP_PAST_ALT, FirstAltEnd(r.rest, reg + GroupsB(r.branch)));
    QuietBranch(r.branch, [], reg, P, b);
    ScanOne(P, s);
    ScanOne(P, f);
    ScanThrough(P, s, b, f);
    ScanThrough(P, s, f, f + 3);
  }

  // The code of a tree ends in an empty jump exactly when the last of several alternatives is
  // without code.
  lemma EmptyEnd(r: Regex)
    requires WellFormed(r) && |RegexCode(r, 0)| <= MAX_OFFSET
    ensures JumpsToEnd(RegexCode(r, 0)) <==> EndsEmpty(r, 0)
  {
    hide *;
    var P := RegexCode(r, 0);
    AtAll(P);
    QuietRegex(r, 0, P, 0);
    if EndsEmpty(r, 0) {
      var f := LastJump(r, 0, P, 0);
      EndJump(P, f);
    } else {
      NoEndJump(P);
    }
  }

  lemma AtAll(P: Code)
    ensures At(P, 0, P)
  {
  }

  lemma EndJump(P: Code, f: nat)
    requires EndsInJump(P, 0, |P|, f)
    ensures JumpsToEnd(P)
  {
    hide StartIn, EmptyJump;
  }

  lemma NoEndJump(P: Code)
    requires Quiet(P, 0, |P|, false)
    ensures !JumpsToEnd(P)
  {
    hide StartIn, EmptyJump, Scan;
  }

  // The pattern `|' is such a tree, and `a|b' is not.
  lemma EmptyEndExamples()
    ensures
      var nothing, b := Or(Empty, Last(Empty)), Then(Single(Chr('b' as int)), Empty);
      && JumpsToEnd(RegexCode(nothing, 0)) && RegexText(nothing) == ['|' as int]
      && !JumpsToEnd(RegexCode(Or(b, Last(b)), 0))
  {
    var nothing, b := Or(Empty, Last(Empty)), Then(Single(Chr('b' as int)), Empty);
    NothingCode();
    LetterCode(b);
    EmptyEnd(nothing);
    EmptyEnd(Or(b, Last(b)));
  }

  lemma NothingCode()
    ensures |RegexCode(Or(Empty, Last(Empty)), 0)| == 6 && WellFormed(Or(Empty, Last(Empty)))
  {
    LastCode(Last(Empty), 0);
  }

  lemma LetterCode(b: Branch)
    requires b == Then(Single(Chr('b' as int)), Empty)
    ensures |RegexCode(Or(b, Last(b)), 0)| == 12 && WellFormed(Or(b, Last(b))) && !EndsEmpty(Or(b, Last(b)), 0)
  {
    assert IsLiteral(b.first) && b.rest == Empty && GroupsB(b) == GroupsA(b.first.atom) + GroupsB(b.rest) == 0;
    assert !NoCode(b, 0);
    assert BranchCode(b, [], 0) == Flush([]) + BranchCode(Empty, ['b' as int], 0);
    assert BranchCode(Empty, ['b' as int], 0) == Flush(['b' as int]);
    LastCode(Last(b), 0);
    LetterFits(b.first);
    BranchFits(b.rest);
    BranchFits(b);
    TreeFits(Last(b));
    TreeFits(Or(b, Last(b)));
  }

  lemma LetterFits(p: Piece)
    requires p == Single(Chr('b' as int))
    ensures WellFormedPiece(p)
  {
    assert WellFormedAtom(p.atom);
  }

  lemma BranchFits(b: Branch)
    requires b.Then? ==> WellFormedPiece(b.first) && WellFormedBranch(b.rest)
    ensures WellFormedBranch(b)
  {
  }

  lemma TreeFits(r: Regex)
    requires WellFormedBranch(r.branch) && (r.Or? ==> WellFormed(r.rest))
    ensures WellFormed(r)
  {
  }

  // In the code of a tree an empty jump leads to the end, or to no failure jump.
  lemma CodeIsQuiet(r: Regex)
    requires WellFormed(r) && |RegexCode(r, 0)| <= MAX_OFFSET
    ensures Quiet(RegexCode(r, 0), 0, |RegexCode(r, 0)|, true)
  {
    hide RegexCode, EndsEmpty, Quiet, WellFormed;
    var P := RegexCode(r, 0);
    assert At(P, 0, P);
    QuietRegex(r, 0, P, 0);
    QuietWeaker(P, 0, |P|, EndsEmpty(r, 0));
  }
}
