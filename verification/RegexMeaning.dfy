/**
 Compilation preserves meaning: the code of a tree, standing anywhere in a program of at
 most 32767 bytes and read nondeterministically, leads from its first byte to just past
 its last one over exactly the words the tree denotes.
 */
module RegexMeaning {
  import opened RegexBytes
  import opened RegexSyntax
  import opened RegexGen
  import opened RegexNfa

  // ----- where the parts of a repetition, a group and an alternation stand -----

  lemma RepLayout(P: Code, s: nat, body: Code, zeroOk: bool, manyOk: bool)
    requires At(P, s, RepCode(body, zeroOk, manyOk))
    ensures
      var d := if zeroOk then 0 else 3;
      && (!zeroOk ==> At(P, s, Op1(DUMMY_FAILURE_JUMP, 3)))
      && At(P, s + d, Op1(ON_FAILURE_JUMP, |body| + if manyOk then 3 else 0))
      && At(P, s + d + 3, body)
      && (manyOk ==> At(P, s + d + 3 + |body|, Op1(MAYBE_POP_JUMP, -|body| - 6)))
      && |RepCode(body, zeroOk, manyOk)| == d + 3 + |body| + if manyOk then 3 else 0
  {
    var d := if zeroOk then [] else Op1(DUMMY_FAILURE_JUMP, 3);
    var f := Op1(ON_FAILURE_JUMP, |body| + if manyOk then 3 else 0);
    var m := if manyOk then Op1(MAYBE_POP_JUMP, -|body| - 6) else [];
    AtParts(P, s, d + f + body, m);
    AtParts(P, s, d + f, body);
    AtParts(P, s, d, f);
  }

  lemma GroupLayout(P: Code, s: nat, body: Code, regnum: nat, inner: nat, alternatives: bool)
    requires At(P, s, GroupCode(body, regnum, inner, alternatives))
    ensures
      var h := if regnum <= MAX_REGNUM then [START_MEMORY, regnum, inner % 256] else [];
      var d := if alternatives then [PUSH_DUMMY_FAILURE] else [];
      var e := if regnum <= MAX_REGNUM then [STOP_MEMORY, regnum, inner % 256] else [];
      && At(P, s, h) && At(P, s + |h|, body) && At(P, s + |h| + |body|, d)
      && At(P, s + |h| + |body| + |d|, e)
      && |GroupCode(body, regnum, inner, alternatives)| == |h| + |body| + |d| + |e|
  {
    var h := if regnum <= MAX_REGNUM then [START_MEMORY, regnum, inner % 256] else [];
    var d := if alternatives then [PUSH_DUMMY_FAILURE] else [];
    var e := if regnum <= MAX_REGNUM then [STOP_MEMORY, regnum, inner % 256] else [];
    AtParts(P, s, h + body + d, e);
    AtParts(P, s, h + body, d);
    AtParts(P, s, h, body);
  }

  // The length of the instruction that opens a group.
  function GroupHead(regnum: nat): nat {
    if regnum <= MAX_REGNUM then 3 else 0
  }

  lemma GroupEnter(P: Code, s: nat, body: Code, regnum: nat, inner: nat, alternatives: bool,
                   t: Text, i: nat, j: nat, n: nat)
    requires At(P, s, GroupCode(body, regnum, inner, alternatives)) && i <= |t|
    ensures At(P, s + GroupHead(regnum), body)
    ensures AccN(P, t, s, i, j, n) ==> AccN(P, t, s + GroupHead(regnum), i, j, n)
    ensures AccN(P, t, s + GroupHead(regnum), i, j, n) ==> AccN(P, t, s, i, j, n + 1)
  {
    hide AccN, At;
    GroupLayout(P, s, body, regnum, inner, alternatives);
    var h := if regnum <= MAX_REGNUM then [START_MEMORY, regnum, inner % 256] else [];
    Skip(P, t, s, h, i, j, n);
  }

  lemma GroupLeave(P: Code, s: nat, body: Code, regnum: nat, inner: nat, alternatives: bool,
                   t: Text, i: nat, j: nat, n: nat)
    requires At(P, s, GroupCode(body, regnum, inner, alternatives)) && i <= |t|
    ensures
      var b := s + GroupHead(regnum) + |body|;
      var e := s + |GroupCode(body, regnum, inner, alternatives)|;
      && (AccN(P, t, b, i, j, n) ==> AccN(P, t, e, i, j, n))
      && (AccN(P, t, e, i, j, n) ==> AccN(P, t, b, i, j, n + 2))
  {
    hide AccN, At;
    GroupLayout(P, s, body, regnum, inner, alternatives);
    var b := s + GroupHead(regnum) + |body|;
    var d := if alternatives then [PUSH_DUMMY_FAILURE] else [];
    var e := if regnum <= MAX_REGNUM then [STOP_MEMORY, regnum, inner % 256] else [];
    Skip(P, t, b, d, i, j, n);
    Skip(P, t, b + |d|, e, i, j, n);
    Skip(P, t, b, d, i, j, n + 1);
  }

  lemma OrLayout(P: Code, s: nat, r: Regex, reg: nat)
    requires r.Or? && At(P, s, RegexCode(r, reg))
    ensures
      var first := BranchCode(r.branch, [], reg);
      var more := RegexCode(r.rest, reg + GroupsB(r.branch));
      && At(P, s, Op1(ON_FAILURE_JUMP, |first| + 3))
      && At(P, s + 3, first)
      && At(P, s + 3 + |first|, Op1(JUMP_PAST_ALT, FirstAltEnd(r.rest, reg + GroupsB(r.branch))))
      && At(P, s + 6 + |first|, more)
      && |RegexCode(r, reg)| == 6 + |first| + |more|
  {
    var first := BranchCode(r.branch, [], reg);
    var more := RegexCode(r.rest, reg + GroupsB(r.branch));
    var f := Op1(ON_FAILURE_JUMP, |first| + 3);
    var p := Op1(JUMP_PAST_ALT, FirstAltEnd(r.rest, reg + GroupsB(r.branch)));
    AtParts(P, s, f + first + p, more);
    AtParts(P, s, f + first, p);
    AtParts(P, s, f, first);
  }

  lemma FirstAltInside(r: Regex, reg: nat)
    ensures FirstAltEnd(r, reg) <= |RegexCode(r, reg)|
  {
  }

  // The jumps past the alternatives are chained: from the end of any alternative they lead
  // to the end of the last one.
  lemma {:induction false} Chain(r: Regex, reg: nat, P: Code, s: nat, t: Text, i: nat, j: nat, n: nat)
    requires |P| <= MAX_OFFSET && At(P, s, RegexCode(r, reg)) && i <= |t|
    requires AccN(P, t, s + FirstAltEnd(r, reg), i, j, n)
    ensures AccN(P, t, s + |RegexCode(r, reg)|, i, j, n)
    decreases r
  {
    hide AccN, At, BranchCode;
    if r.Or? {
      OrLayout(P, s, r, reg);
      var f := FirstAltEnd(r, reg);
      var reg' := reg + GroupsB(r.branch);
      FirstAltInside(r.rest, reg');
      PlainJump(P, t, s + f, JUMP_PAST_ALT, FirstAltEnd(r.rest, reg'), i, j, n);
      Chain(r.rest, reg', P, s + f + 3, t, i, j, n - 1);
      AccNMore(P, t, s + |RegexCode(r, reg)|, i, j, n - 1, n);
    }
  }

  lemma {:induction false} ChainBack(r: Regex, reg: nat, P: Code, s: nat, t: Text, i: nat, j: nat, n: nat)
    returns (m: nat)
    requires |P| <= MAX_OFFSET && At(P, s, RegexCode(r, reg)) && i <= |t|
    requires AccN(P, t, s + |RegexCode(r, reg)|, i, j, n)
    ensures AccN(P, t, s + FirstAltEnd(r, reg), i, j, m)
    decreases r
  {
    hide AccN, At, BranchCode;
    m := n;
    if r.Or? {
      OrLayout(P, s, r, reg);
      var f := FirstAltEnd(r, reg);
      var reg' := reg + GroupsB(r.branch);
      FirstAltInside(r.rest, reg');
      m := ChainBack(r.rest, reg', P, s + f + 3, t, i, j, n);
      PlainJump(P, t, s + f, JUMP_PAST_ALT, FirstAltEnd(r.rest, reg'), i, j, m + 1);
      m := m + 1;
    }
  }

  // The loop of a `+' is the loop of a `*' behind a jump over its first instruction.
  lemma PlusLayout(P: Code, s: nat, body: Code)
    requires At(P, s, RepCode(body, false, true))
    ensures At(P, s + 3, RepCode(body, true, true))
    ensures |RepCode(body, false, true)| == 3 + |RepCode(body, true, true)|
  {
    assert RepCode(body, false, true) == Op1(DUMMY_FAILURE_JUMP, 3) + RepCode(body, true, true);
    AtParts(P, s, Op1(DUMMY_FAILURE_JUMP, 3), RepCode(body, true, true));
  }

  // ----- words, as stretches of the text -----

  lemma Join(A: Lang, B: Lang, t: Text, i: nat, y: nat, k: nat)
    requires i <= y <= k <= |t| && t[i..y] in A && t[y..k] in B
    ensures t[i..k] in Cat(A, B)
  {
    CatIntro(A, B, t[i..y], t[y..k]);
    assert t[i..y] + t[y..k] == t[i..k];
  }

  lemma Split(A: Lang, B: Lang, t: Text, i: nat, k: nat) returns (y: nat)
    requires i <= k <= |t| && t[i..k] in Cat(A, B)
    ensures i <= y <= k && t[i..y] in A && t[y..k] in B
  {
    var u, v := CatElim(A, B, t[i..k]);
    y := i + |u|;
    assert t[i..y] == t[i..k][..|u|] == u;
    assert t[y..k] == t[i..k][|u|..] == v;
  }

  lemma JoinStar(A: Lang, t: Text, i: nat, y: nat, k: nat)
    requires i <= y <= k <= |t| && t[i..y] in A && t[y..k] in StarOf(A)
    ensures t[i..k] in StarOf(A)
  {
    StarOne(A, t[i..y]);
    StarAdd(A, t[i..y], t[y..k]);
    assert t[i..y] + t[y..k] == t[i..k];
  }

  lemma StarElim(A: Lang, w: Text) returns (c: nat)
    requires w in StarOf(A)
    ensures w in Power(A, c)
  {
    c :| w in Power(A, c);
  }

  // Reading one more literal of a run.
  lemma RunGrows(t: Text, i: nat, run: Text, c: byte)
    requires i + |run| < |t|
    ensures t[i..i + |run| + 1] == run + [c] <==> t[i..i + |run|] == run && t[i + |run|..i + |run| + 1] == [c]
  {
    var whole := t[i..i + |run| + 1];
    assert whole[..|run|] == t[i..i + |run|] && whole[|run|..] == t[i + |run|..i + |run| + 1];
    assert whole == whole[..|run|] + whole[|run|..];
    if whole == run + [c] {
      assert whole[..|run|] == run && whole[|run|..] == [c];
    }
  }

  lemma LiteralLang(p: Piece, w: Text)
    requires IsLiteral(p)
    ensures w in PieceLang(p) <==> w == [p.atom.c]
  {
  }

  // What a branch is made of.
  lemma BranchParts(b: Branch, run: Text, reg: nat)
    requires |run| <= 255 && WellFormedBranch(b)
    ensures b.Empty? ==> BranchLang(b) == iset{[]} && BranchCode(b, run, reg) == Flush(run)
    ensures b.Then? ==> WellFormedPiece(b.first) && WellFormedBranch(b.rest)
    ensures b.Then? ==> BranchLang(b) == Cat(PieceLang(b.first), BranchLang(b.rest))
    ensures b.Then? && IsLiteral(b.first) ==> b.first.atom.Chr?
    ensures b.Then? && IsLiteral(b.first) && 0 < |run| < 255 ==>
      BranchCode(b, run, reg) == BranchCode(b.rest, run + [b.first.atom.c], reg)
    ensures b.Then? && IsLiteral(b.first) && !(0 < |run| < 255) ==>
      BranchCode(b, run, reg) == Flush(run) + BranchCode(b.rest, [b.first.atom.c], reg)
    ensures b.Then? && !IsLiteral(b.first) ==>
      BranchCode(b, run, reg) == Flush(run) + PieceCode(b.first, reg) + BranchCode(b.rest, [], reg + GroupsA(b.first.atom))
  {
    hide PieceCode, PieceLang, GroupsA, Flush, WellFormedPiece, Cat;
  }

  lemma RepSomething(ops: seq<RepOp>)
    requires ops != []
    ensures ZeroOk(ops) || ManyOk(ops)
  {
    assert ops[0] != Plus || ops[0] != Opt;
  }

  // ----- soundness: a run through a block spells a word of its language -----

  lemma {:induction false} SoundRegex(r: Regex, reg: nat, P: Code, s: nat, t: Text, i: nat, j: nat, n: nat)
    returns (k: nat, m: nat)
    requires WellFormed(r)
    requires |P| <= MAX_OFFSET && At(P, s, RegexCode(r, reg)) && i <= |t|
    requires AccN(P, t, s, i, j, n)
    ensures i <= k <= |t| && m <= n && t[i..k] in RegexLang(r)
    ensures AccN(P, t, s + |RegexCode(r, reg)|, k, j, m)
    decreases r, 0, 0
  {
    hide AccN, At, BranchCode, BranchLang, GroupsB, FirstAltEnd, WellFormedBranch, Op1, Succ, Flush, IsLiteral,
      PieceCode, GroupsA;
    if r.Last? {
      k, m := SoundBranch(r.branch, [], reg, P, s, t, i, j, n);
    } else {
      OrLayout(P, s, r, reg);
      var first := BranchCode(r.branch, [], reg);
      var reg' := reg + GroupsB(r.branch);
      FailureJump(P, t, s, |first| + 3, i, j, n);
      if AccN(P, t, s + 3, i, j, n - 1) {
        k, m := SoundBranch(r.branch, [], reg, P, s + 3, t, i, j, n - 1);
        FirstAltInside(r.rest, reg');
        PlainJump(P, t, s + 3 + |first|, JUMP_PAST_ALT, FirstAltEnd(r.rest, reg'), k, j, m);
        m := m - 1;
        Chain(r.rest, reg', P, s + 6 + |first|, t, k, j, m);
      } else {
        k, m := SoundRegex(r.rest, reg', P, s + 6 + |first|, t, i, j, n - 1);
      }
    }
  }

  lemma {:induction false} SoundBranch(b: Branch, run: Text, reg: nat, P: Code, s: nat, t: Text, i: nat, j: nat, n: nat)
    returns (k: nat, m: nat)
    requires WellFormedBranch(b)
    requires |run| <= 255 && |P| <= MAX_OFFSET && At(P, s, BranchCode(b, run, reg)) && i <= |t|
    requires AccN(P, t, s, i, j, n)
    ensures i + |run| <= k <= |t| && m <= n
    ensures t[i..i + |run|] == run && t[i + |run|..k] in BranchLang(b)
    ensures AccN(P, t, s + |BranchCode(b, run, reg)|, k, j, m)
    decreases b, 1, 0
  {
    hide *;
    BranchParts(b, run, reg);
    if b.Empty? {
      k, m := SoundRun(run, P, s, t, i, j, n);
      assert t[k..k] == [];
    } else if IsLiteral(b.first) && 0 < |run| < 255 {
      var c := b.first.atom.c;
      k, m := SoundBranch(b.rest, run + [c], reg, P, s, t, i, j, n);
      RunGrows(t, i, run, c);
      LiteralLang(b.first, t[i + |run|..i + |run| + 1]);
      Join(PieceLang(b.first), BranchLang(b.rest), t, i + |run|, i + |run| + 1, k);
    } else if IsLiteral(b.first) {
      var c := b.first.atom.c;
      AtParts(P, s, Flush(run), BranchCode(b.rest, [c], reg));
      var x, y := SoundRun(run, P, s, t, i, j, n);
      k, m := SoundBranch(b.rest, [c], reg, P, s + |Flush(run)|, t, x, j, y);
      LiteralLang(b.first, t[x..x + 1]);
      Join(PieceLang(b.first), BranchLang(b.rest), t, x, x + 1, k);
    } else {
      var first := PieceCode(b.first, reg);
      var reg' := reg + GroupsA(b.first.atom);
      AtParts(P, s, Flush(run) + first, BranchCode(b.rest, [], reg'));
      AtParts(P, s, Flush(run), first);
      var x, y := SoundRun(run, P, s, t, i, j, n);
      var x', y' := SoundPiece(b.first, reg, P, s + |Flush(run)|, t, x, j, y);
      k, m := SoundBranch(b.rest, [], reg', P, s + |Flush(run) + first|, t, x', j, y');
      Join(PieceLang(b.first), BranchLang(b.rest), t, x, x', k);
    }
  }

  lemma SoundRun(run: Text, P: Code, s: nat, t: Text, i: nat, j: nat, n: nat) returns (k: nat, m: nat)
    requires |run| <= 255 && At(P, s, Flush(run)) && i <= |t|
    requires AccN(P, t, s, i, j, n)
    ensures k == i + |run| <= |t| && m <= n && t[i..k] == run
    ensures AccN(P, t, s + |Flush(run)|, k, j, m)
  {
    hide AccN, At, InCat, InStar;
    k, m := i + |run|, n;
    if run != [] {
      LiteralStep(P, t, s, run, i, j, n);
      m := n - 1;
    }
  }

  lemma {:induction false} SoundPiece(p: Piece, reg: nat, P: Code, s: nat, t: Text, i: nat, j: nat, n: nat)
    returns (k: nat, m: nat)
    requires WellFormedPiece(p)
    requires |P| <= MAX_OFFSET && At(P, s, PieceCode(p, reg)) && i <= |t|
    requires AccN(P, t, s, i, j, n)
    ensures i <= k <= |t| && m <= n && t[i..k] in PieceLang(p)
    ensures AccN(P, t, s + |PieceCode(p, reg)|, k, j, m)
    decreases p, 2, 0
  {
    hide AccN, At, InCat, InStar;
    if p.Single? {
      k, m := SoundAtom(p.atom, reg, P, s, t, i, j, n);
    } else {
      RepSomething(p.ops);
      k, m := SoundRep(p.atom, ZeroOk(p.ops), ManyOk(p.ops), reg, P, s, t, i, j, n);
      OpsCollapse(AtomLang(p.atom), p.ops);
    }
  }

  lemma {:induction false} SoundRep(a: Atom, zeroOk: bool, manyOk: bool, reg: nat,
                                    P: Code, s: nat, t: Text, i: nat, j: nat, n: nat)
    returns (k: nat, m: nat)
    requires WellFormedAtom(a)
    requires |P| <= MAX_OFFSET && At(P, s, RepCode(AtomCode(a, reg), zeroOk, manyOk)) && i <= |t|
    requires AccN(P, t, s, i, j, n) && (zeroOk || manyOk)
    ensures i <= k <= |t| && m <= n && t[i..k] in Collapsed(AtomLang(a), zeroOk, manyOk)
    ensures AccN(P, t, s + |RepCode(AtomCode(a, reg), zeroOk, manyOk)|, k, j, m)
    decreases a, 2, 0
  {
    hide AccN, At, InCat, InStar, AtomCode, AtomLang;
    var X := AtomCode(a, reg);
    RepLayout(P, s, X, zeroOk, manyOk);
    if !zeroOk {
      PlusLayout(P, s, X);
      PlainJump(P, t, s, DUMMY_FAILURE_JUMP, 3, i, j, n);
      k, m := SoundAtom(a, reg, P, s + 6, t, i, j, n - 1);
      PlainJump(P, t, s + 6 + |X|, MAYBE_POP_JUMP, -|X| - 6, k, j, m);
      var k' := k;
      k, m := SoundLoop(a, reg, P, s + 3, t, k, j, m - 1);
      Join(AtomLang(a), StarOf(AtomLang(a)), t, i, k', k);
    } else if manyOk {
      k, m := SoundLoop(a, reg, P, s, t, i, j, n);
    } else {
      FailureJump(P, t, s, |X|, i, j, n);
      if AccN(P, t, s + 3 + |X|, i, j, n - 1) {
        k, m := i, n - 1;
        assert t[i..i] == [];
      } else {
        k, m := SoundAtom(a, reg, P, s + 3, t, i, j, n - 1);
      }
      assert t[i..k] in OptOf(AtomLang(a));
    }
  }

  lemma {:induction false} SoundLoop(a: Atom, reg: nat, P: Code, s: nat, t: Text, i: nat, j: nat, n: nat)
    returns (k: nat, m: nat)
    requires WellFormedAtom(a)
    requires |P| <= MAX_OFFSET && At(P, s, RepCode(AtomCode(a, reg), true, true)) && i <= |t|
    requires AccN(P, t, s, i, j, n)
    ensures i <= k <= |t| && m <= n && t[i..k] in StarOf(AtomLang(a))
    ensures AccN(P, t, s + |RepCode(AtomCode(a, reg), true, true)|, k, j, m)
    decreases a, 1, n
  {
    hide AccN, At, InCat, InStar, AtomCode, AtomLang, RepCode;
    var X := AtomCode(a, reg);
    RepLayout(P, s, X, true, true);
    FailureJump(P, t, s, |X| + 3, i, j, n);
    if AccN(P, t, s + 6 + |X|, i, j, n - 1) {
      k, m := i, n - 1;
      StarEmpty(AtomLang(a));
    } else {
      k, m := SoundAtom(a, reg, P, s + 3, t, i, j, n - 1);
      PlainJump(P, t, s + 3 + |X|, MAYBE_POP_JUMP, -|X| - 6, k, j, m);
      var k' := k;
      k, m := SoundLoop(a, reg, P, s, t, k, j, m - 1);
      JoinStar(AtomLang(a), t, i, k', k);
    }
  }

  lemma {:induction false} SoundAtom(a: Atom, reg: nat, P: Code, s: nat, t: Text, i: nat, j: nat, n: nat)
    returns (k: nat, m: nat)
    requires WellFormedAtom(a)
    requires |P| <= MAX_OFFSET && At(P, s, AtomCode(a, reg)) && i <= |t|
    requires AccN(P, t, s, i, j, n)
    ensures i <= k <= |t| && m <= n && t[i..k] in AtomLang(a)
    ensures AccN(P, t, s + |AtomCode(a, reg)|, k, j, m)
    decreases a, 0, 0
  {
    hide AccN, At, InCat, InStar, RegexCode, RegexLang, GroupCode;
    if a.Group? {
      var body := RegexCode(a.r, reg + 1);
      GroupEnter(P, s, body, reg + 1, GroupsR(a.r), a.r.Or?, t, i, j, n);
      k, m := SoundRegex(a.r, reg + 1, P, s + GroupHead(reg + 1), t, i, j, n);
      GroupLeave(P, s, body, reg + 1, GroupsR(a.r), a.r.Or?, t, k, j, m);
    } else {
      AtomStep(P, t, s, a, reg, i, j, n);
      k, m := i + 1, n - 1;
      AtomHasLang(a, t[i..i + 1]);
    }
  }

  // ----- completeness: a word of the language leads through the block -----

  lemma {:induction false} CompleteRegex(r: Regex, reg: nat, P: Code, s: nat, t: Text, i: nat, k: nat, j: nat, m: nat)
    returns (n: nat)
    requires WellFormed(r)
    requires |P| <= MAX_OFFSET && At(P, s, RegexCode(r, reg)) && i <= k <= |t|
    requires t[i..k] in RegexLang(r) && AccN(P, t, s + |RegexCode(r, reg)|, k, j, m)
    ensures AccN(P, t, s, i, j, n)
    decreases r, 0, 0
  {
    hide AccN, At, BranchCode, BranchLang, GroupsB, FirstAltEnd, WellFormedBranch, Op1, Succ, Flush, IsLiteral,
      PieceCode, GroupsA, Cat, PieceLang;
    if r.Last? {
      n := CompleteBranch(r.branch, [], reg, P, s, t, i, k, j, m);
    } else {
      OrLayout(P, s, r, reg);
      var first := BranchCode(r.branch, [], reg);
      var reg' := reg + GroupsB(r.branch);
      if t[i..k] in BranchLang(r.branch) {
        var m' := ChainBack(r.rest, reg', P, s + 6 + |first|, t, k, j, m);
        FirstAltInside(r.rest, reg');
        PlainJump(P, t, s + 3 + |first|, JUMP_PAST_ALT, FirstAltEnd(r.rest, reg'), k, j, m' + 1);
        n := CompleteBranch(r.branch, [], reg, P, s + 3, t, i, k, j, m' + 1);
      } else {
        n := CompleteRegex(r.rest, reg', P, s + 6 + |first|, t, i, k, j, m);
      }
      FailureJump(P, t, s, |first| + 3, i, j, n + 1);
      n := n + 1;
    }
  }

  lemma {:induction false} CompleteBranch(b: Branch, run: Text, reg: nat, P: Code, s: nat, t: Text, i: nat, k: nat, j: nat, m: nat)
    returns (n: nat)
    requires WellFormedBranch(b)
    requires |run| <= 255 && |P| <= MAX_OFFSET && At(P, s, BranchCode(b, run, reg)) && i + |run| <= k <= |t|
    requires t[i..i + |run|] == run && t[i + |run|..k] in BranchLang(b)
    requires AccN(P, t, s + |BranchCode(b, run, reg)|, k, j, m)
    ensures AccN(P, t, s, i, j, n)
    decreases b, 1, 0
  {
    hide AccN, At, InCat, PieceCode, PieceLang, AtomLang, GroupsA, Flush, WellFormedPiece, Cat, Succ, ApplyOps,
      AtomCode, RepCode, ZeroOk, ManyOk, GroupsR;
    var x := i + |run|;
    if b.Empty? {
      n := CompleteRun(run, P, s, t, i, j, m);
    } else {
      var y := Split(PieceLang(b.first), BranchLang(b.rest), t, x, k);
      if IsLiteral(b.first) && 0 < |run| < 255 {
        LiteralLang(b.first, t[x..y]);
        RunGrows(t, i, run, b.first.atom.c);
        n := CompleteBranch(b.rest, run + [b.first.atom.c], reg, P, s, t, i, k, j, m);
      } else if IsLiteral(b.first) {
        var c := b.first.atom.c;
        LiteralLang(b.first, t[x..y]);
        AtParts(P, s, Flush(run), BranchCode(b.rest, [c], reg));
        n := CompleteBranch(b.rest, [c], reg, P, s + |Flush(run)|, t, x, k, j, m);
        n := CompleteRun(run, P, s, t, i, j, n);
      } else {
        var first := PieceCode(b.first, reg);
        var reg' := reg + GroupsA(b.first.atom);
        AtParts(P, s, Flush(run) + first, BranchCode(b.rest, [], reg'));
        AtParts(P, s, Flush(run), first);
        n := CompleteBranch(b.rest, [], reg', P, s + |Flush(run) + first|, t, y, k, j, m);
        n := CompletePiece(b.first, reg, P, s + |Flush(run)|, t, x, y, j, n);
        n := CompleteRun(run, P, s, t, i, j, n);
      }
    }
  }

  lemma CompleteRun(run: Text, P: Code, s: nat, t: Text, i: nat, j: nat, m: nat) returns (n: nat)
    requires |run| <= 255 && At(P, s, Flush(run)) && i + |run| <= |t| && t[i..i + |run|] == run
    requires AccN(P, t, s + |Flush(run)|, i + |run|, j, m)
    ensures AccN(P, t, s, i, j, n)
  {
    hide AccN, At, InCat, InStar;
    n := m;
    if run != [] {
      LiteralStep(P, t, s, run, i, j, m + 1);
      n := m + 1;
    }
  }

  lemma {:induction false} CompletePiece(p: Piece, reg: nat, P: Code, s: nat, t: Text, i: nat, k: nat, j: nat, m: nat)
    returns (n: nat)
    requires WellFormedPiece(p)
    requires |P| <= MAX_OFFSET && At(P, s, PieceCode(p, reg)) && i <= k <= |t|
    requires t[i..k] in PieceLang(p) && AccN(P, t, s + |PieceCode(p, reg)|, k, j, m)
    ensures AccN(P, t, s, i, j, n)
    decreases p, 2, 0
  {
    hide AccN, At, InCat, InStar;
    if p.Single? {
      n := CompleteAtom(p.atom, reg, P, s, t, i, k, j, m);
    } else {
      RepSomething(p.ops);
      OpsCollapse(AtomLang(p.atom), p.ops);
      n := CompleteRep(p.atom, ZeroOk(p.ops), ManyOk(p.ops), reg, P, s, t, i, k, j, m);
    }
  }

  lemma {:induction false} CompleteRep(a: Atom, zeroOk: bool, manyOk: bool, reg: nat,
                                       P: Code, s: nat, t: Text, i: nat, k: nat, j: nat, m: nat)
    returns (n: nat)
    requires WellFormedAtom(a)
    requires |P| <= MAX_OFFSET && At(P, s, RepCode(AtomCode(a, reg), zeroOk, manyOk)) && i <= k <= |t|
    requires zeroOk || manyOk
    requires t[i..k] in Collapsed(AtomLang(a), zeroOk, manyOk)
    requires AccN(P, t, s + |RepCode(AtomCode(a, reg), zeroOk, manyOk)|, k, j, m)
    ensures AccN(P, t, s, i, j, n)
    decreases a, 2, 0
  {
    hide AccN, At, InCat, InStar, AtomCode, AtomLang;
    var X := AtomCode(a, reg);
    RepLayout(P, s, X, zeroOk, manyOk);
    if !zeroOk {
      PlusLayout(P, s, X);
      var y := Split(AtomLang(a), StarOf(AtomLang(a)), t, i, k);
      var c := StarElim(AtomLang(a), t[y..k]);
      n := CompleteLoop(a, reg, P, s + 3, t, y, k, j, m, c);
      PlainJump(P, t, s + 6 + |X|, MAYBE_POP_JUMP, -|X| - 6, y, j, n + 1);
      n := CompleteAtom(a, reg, P, s + 6, t, i, y, j, n + 1);
      PlainJump(P, t, s, DUMMY_FAILURE_JUMP, 3, i, j, n + 1);
      n := n + 1;
    } else if manyOk {
      var c := StarElim(AtomLang(a), t[i..k]);
      n := CompleteLoop(a, reg, P, s, t, i, k, j, m, c);
    } else {
      if t[i..k] in AtomLang(a) {
        n := CompleteAtom(a, reg, P, s + 3, t, i, k, j, m);
      } else {
        n := m;
      }
      FailureJump(P, t, s, |X|, i, j, n + 1);
      n := n + 1;
    }
  }

  lemma {:induction false} CompleteLoop(a: Atom, reg: nat, P: Code, s: nat, t: Text, i: nat, k: nat, j: nat, m: nat, c: nat)
    returns (n: nat)
    requires WellFormedAtom(a)
    requires |P| <= MAX_OFFSET && At(P, s, RepCode(AtomCode(a, reg), true, true)) && i <= k <= |t|
    requires t[i..k] in Power(AtomLang(a), c)
    requires AccN(P, t, s + |RepCode(AtomCode(a, reg), true, true)|, k, j, m)
    ensures AccN(P, t, s, i, j, n)
    decreases a, 1, c
  {
    hide AccN, At, InCat, InStar, AtomCode, AtomLang, RepCode;
    var X := AtomCode(a, reg);
    RepLayout(P, s, X, true, true);
    if c == 0 {
      assert i == k;
      n := m;
    } else {
      var y := Split(AtomLang(a), Power(AtomLang(a), c - 1), t, i, k);
      n := CompleteLoop(a, reg, P, s, t, y, k, j, m, c - 1);
      PlainJump(P, t, s + 3 + |X|, MAYBE_POP_JUMP, -|X| - 6, y, j, n + 1);
      n := CompleteAtom(a, reg, P, s + 3, t, i, y, j, n + 1);
    }
    FailureJump(P, t, s, |X| + 3, i, j, n + 1);
    n := n + 1;
  }

  lemma {:induction false} CompleteAtom(a: Atom, reg: nat, P: Code, s: nat, t: Text, i: nat, k: nat, j: nat, m: nat)
    returns (n: nat)
    requires WellFormedAtom(a)
    requires |P| <= MAX_OFFSET && At(P, s, AtomCode(a, reg)) && i <= k <= |t|
    requires t[i..k] in AtomLang(a) && AccN(P, t, s + |AtomCode(a, reg)|, k, j, m)
    ensures AccN(P, t, s, i, j, n)
    decreases a, 0, 0
  {
    hide AccN, At, InCat, InStar, RegexCode, RegexLang, GroupCode;
    if a.Group? {
      var body := RegexCode(a.r, reg + 1);
      GroupEnter(P, s, body, reg + 1, GroupsR(a.r), a.r.Or?, t, i, j, 0);
      GroupLeave(P, s, body, reg + 1, GroupsR(a.r), a.r.Or?, t, k, j, m);
      n := CompleteRegex(a.r, reg + 1, P, s + GroupHead(reg + 1), t, i, k, j, m + 2);
      GroupEnter(P, s, body, reg + 1, GroupsR(a.r), a.r.Or?, t, i, j, n);
      n := n + 1;
    } else {
      AtomHasLang(a, t[i..k]);
      assert t[i..k][0] == t[i];
      AtomStep(P, t, s, a, reg, i, j, m + 1);
      n := m + 1;
    }
  }

  // The whole code of a tree accepts, from any position, exactly the words of the tree.
  lemma CodeMeansLanguage(r: Regex, t: Text, i: nat, j: nat)
    requires WellFormed(r) && |RegexCode(r, 0)| <= MAX_OFFSET && i <= |t|
    ensures Acc(RegexCode(r, 0), t, 0, i, j) <==> i <= j <= |t| && t[i..j] in RegexLang(r)
  {
    hide AccN, RegexCode, RegexLang;
    var P := RegexCode(r, 0);
    assert At(P, 0, P);
    if Acc(P, t, 0, i, j) {
      var n: nat :| AccN(P, t, 0, i, j, n);
      var k, m := SoundRegex(r, 0, P, 0, t, i, j, n);
      AccNEnd(P, t, k, j, m);
    }
    if i <= j <= |t| && t[i..j] in RegexLang(r) {
      AccNEnd(P, t, j, j, 0);
      var n := CompleteRegex(r, 0, P, 0, t, i, j, j, 0);
    }
  }
}
