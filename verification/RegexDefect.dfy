/**
 The two defects in the smallest patterns they can show in: one repeated character class and one
 more, `x*y'. For these the condition that makes the main theorem hold can be told from the two
 classes, it is exact, and where it fails a text of one character is missed.
 */
module RegexDefect {
  import opened Wrappers
  import opened RegexBytes
  import opened RegexSyntax
  import opened RegexGen
  import opened RegexNfa
  import opened RegexMeaning
  import opened RegexBlocks
  import opened RegexVm
  import opened RegexVmProof
  import opened RegexVmRun
  import opened RegexMatch
  import opened RegexTame
  import opened RegexLost
  import opened RegexSteady

  // The pattern a*b.
  function StarThen(a: Atom, b: Atom): Regex {
    Last(Then(Rep(a, [Star]), Then(Single(b), Empty)))
  }

  // A literal loop before a set with that character but without character 1.
  predicate CountByteHits(a: Atom, b: Atom) {
    && a.Chr? && b.Set? && !b.br.negated
    && BracketHas(b.br, a.c) && !BracketHas(b.br, 1)
  }

  // A loop over a set with one of the last eight characters, before a literal of the set.
  predicate FullMapHits(a: Atom, b: Atom) {
    && a.Set? && !a.br.negated && b.Chr?
    && BracketHas(a.br, b.c) && exists c: byte | c >= 248 :: BracketHas(a.br, c)
  }

  lemma StarThenShape(a: Atom, b: Atom)
    requires OneChar(a) && OneChar(b) && WellFormedAtom(a) && WellFormedAtom(b)
    ensures WellFormed(StarThen(a, b)) && SimpleRegex(StarThen(a, b)) && SteadyRegex(StarThen(a, b))
  {
    var tail := Then(Single(b), Empty);
    assert WellFormedBranch(Empty) && SimpleBranch(Empty) && SteadyBranch(Empty);
    assert WellFormedBranch(tail) && SimpleBranch(tail) && SteadyBranch(tail);
    var all := Then(Rep(a, [Star]), tail);
    assert WellFormedBranch(all) && SimpleBranch(all) && SteadyBranch(all);
  }

  lemma StarOps()
    ensures ZeroOk([Star]) && ManyOk([Star])
  {
    assert [Star][0] == Star;
  }

  // For any number of groups opened before it.
  lemma StarThenCode(a: Atom, b: Atom, reg: nat)
    requires OneChar(a) && OneChar(b)
    ensures RegexCode(StarThen(a, b), reg) == RepCode(AtomCode(a, 0), true, true) + AtomCode(b, 0)
  {
    hide AtomCode, RepCode, ZeroOk, ManyOk, BranchCode;
    var X := RepCode(AtomCode(a, 0), true, true);
    LoopFirst(a, Then(Single(b), Empty), reg);
    SingleCode(b, reg);
  }

  lemma FirstCode(p: Piece, rest: Branch, reg: nat)
    requires !IsLiteral(p)
    ensures BranchCode(Then(p, rest), [], reg) == PieceCode(p, reg) + BranchCode(rest, [], reg + GroupsA(p.atom))
  {
    hide PieceCode, GroupsA;
    assert BranchCode(Then(p, rest), [], reg) == [] + PieceCode(p, reg) + BranchCode(rest, [], reg + GroupsA(p.atom));
  }

  lemma LoopFirst(a: Atom, rest: Branch, reg: nat)
    requires OneChar(a)
    ensures BranchCode(Then(Rep(a, [Star]), rest), [], reg)
      == RepCode(AtomCode(a, 0), true, true) + BranchCode(rest, [], reg)
  {
    hide AtomCode, RepCode, ZeroOk, ManyOk, BranchCode;
    SameAtom(a, reg);
    StarOps();
    FirstCode(Rep(a, [Star]), rest, reg);
  }

  lemma SameAtom(a: Atom, reg: nat)
    requires OneChar(a)
    ensures AtomCode(a, reg) == AtomCode(a, 0)
  {
  }

  lemma SingleCode(b: Atom, reg: nat)
    requires OneChar(b)
    ensures BranchCode(Then(Single(b), Empty), [], reg) == AtomCode(b, 0)
  {
    if b.Chr? {
      assert BranchCode(Then(Single(b), Empty), [], reg) == Flush([]) + Flush([b.c]);
    } else {
      assert BranchCode(Then(Single(b), Empty), [], reg) == Flush([]) + AtomCode(b, reg) + Flush([]);
    }
  }

  // The four instructions of a*b.
  ghost predicate FourParts(P: Code, m: nat) {
    && Program(P) && IsEnd(P, m) && Head(P, m) == 0
    && Start(P, m + 3) && Consumes(P[m + 3]) && (P[m + 3] == EXACTN ==> P[m + 4] == 1)
    && m + 3 + InsLen(P, m + 3) == |P|
  }

  lemma StarThenParts(a: Atom, b: Atom)
    requires OneChar(a) && OneChar(b) && WellFormedAtom(a) && WellFormedAtom(b)
    ensures
      var P := RegexCode(StarThen(a, b), 0);
      var m := 3 + |AtomCode(a, 0)|;
      && |P| <= MAX_OFFSET && FourParts(P, m)
  {
    hide OneChar, RegexCode, AtomCode, FourParts, WellFormedBracket, WellFormed, BranchCode, GroupsB, Op1,
      FirstAltEnd, BracketCode, GroupCode, GroupsR, IsEnd, Head, Start, InsLen, At, IsBack, SimpleRegex, SteadyRegex,
      WellFormedCode, Simple, IsEater, Eats, AtomHas;
    var r := StarThen(a, b);
    var P := RegexCode(r, 0);
    StarThenLayout(a, b);
    StarThenShape(a, b);
    CodeIsWellFormed(r);
    hide WellFormedCode, Simple, AtomCode, At, RegexCode, InsLen;
    var m := 3 + |AtomCode(a, 0)|;
    AtomEats(P, 3, a, 0);
    AtomEats(P, m + 3, b, 0);
    FourFrom(P, m);
  }

  lemma FourFrom(P: Code, m: nat)
    requires Program(P) && 3 < m && m + 3 < |P|
    requires InsLen(P, 0) == 3 && InsLen(P, 3) == m - 3 && InsLen(P, m) == 3
    requires InsLen(P, m + 3) > 0 && m + 3 + InsLen(P, m + 3) == |P|
    requires IsBack(P[m]) && Head(P, m) == 0
    requires Consumes(P[m + 3]) && (P[m + 3] == EXACTN ==> P[m + 4] == 1)
    ensures FourParts(P, m)
  {
    hide Program, InsLen, Head;
    ScanOne(P, 0);
    ScanStep(P, 0, 3);
    ScanStep(P, 0, m);
  }

  lemma StarThenLayout(a: Atom, b: Atom)
    requires OneChar(a) && OneChar(b)
    ensures
      var P := RegexCode(StarThen(a, b), 0);
      var X, Y := AtomCode(a, 0), AtomCode(b, 0);
      var m := 3 + |X|;
      && |P| <= MAX_OFFSET && At(P, 3, X) && At(P, m + 3, Y) && m + 3 + |Y| == |P|
      && P[0] == ON_FAILURE_JUMP && InsLen(P, 0) == 3
      && IsBack(P[m]) && InsLen(P, m) == 3 && Head(P, m) == 0
  {
    hide RegexCode, RepCode, BranchCode, OneChar, StarThen, AtomCode, At, InsLen, GroupsB, Op1, FirstAltEnd,
      BracketCode, GroupCode, GroupsR, IsMemory, Target;
    var P := RegexCode(StarThen(a, b), 0);
    var X, Y := AtomCode(a, 0), AtomCode(b, 0);
    StarThenCode(a, b, 0);
    ShortAtom(a);
    ShortAtom(b);
    AtWhole(P);
    hide AtomCode, At;
    AtParts(P, 0, RepCode(X, true, true), Y);
    RepLayout(P, 0, X, true, true);
    JumpAt(P, 0, ON_FAILURE_JUMP, |X| + 3);
    JumpAt(P, 3 + |X|, MAYBE_POP_JUMP, -|X| - 6);
  }

  lemma AtWhole(P: Code)
    ensures At(P, 0, P)
  {
  }

  lemma ShortAtom(a: Atom)
    requires OneChar(a)
    ensures 0 < |AtomCode(a, 0)| <= 34
  {
  }

  // There is no other loop.
  lemma OnlyLoop(P: Code, m: nat, k: nat)
    requires FourParts(P, m) && IsEnd(P, k)
    ensures k == m
  {
    LoopIs(P, m);
    hide Program;
    if k > 0 {
      ScanNext(P, 0, 0, k);
      if k > 3 {
        ScanNext(P, 0, 3, k);
        if k > m {
          ScanNext(P, 0, m, k);
          if k > m + 3 {
            ScanNext(P, 0, m + 3, k);
          }
        }
      }
    }
  }

  // ----- the bytes of the two classes -----

  lemma AtomBytes(P: Code, s: nat, a: Atom)
    requires OneChar(a) && At(P, s, AtomCode(a, 0))
    ensures s < |P|
    ensures a.Chr? ==> P[s] == EXACTN && s + 2 < |P| && P[s + 2] == a.c
    ensures a.Dot? ==> P[s] == ANYCHAR
    ensures
      a.Set? ==>
        && P[s] == (if a.br.negated then CHARSET_NOT else CHARSET)
        && s + 1 < |P| && s + 2 + P[s + 1] <= |P| && MapAt(P, s) == Trim(BracketMap(a.br))
  {
    hide BracketMap, Trim;
    var g := AtomCode(a, 0);
    assert P[s..s + |g|] == g;
    assert P[s] == g[0];
    match a
    case Chr(c) =>
      assert P[s + 2] == g[2];
    case Dot =>
    case Set(br) =>
      assert P[s + 1] == g[1];
      assert P[s + 2..s + |g|] == g[2..] == Trim(BracketMap(br));
  }

  lemma SetBytes(br: Bracket, c: byte)
    requires !br.negated
    ensures MapHas(Trim(BracketMap(br)), c) <==> BracketHas(br, c)
  {
  }

  // The bitmap needs all of its 32 bytes exactly when the set has one of the last eight characters.
  lemma FullMap(br: Bracket)
    requires !br.negated
    ensures |Trim(BracketMap(br))| == 32 <==> exists c: byte | c >= 248 :: BracketHas(br, c)
  {
    hide BracketHas;
    if c: byte :| c >= 248 && BracketHas(br, c) {
      SetBytes(br, c);
    } else {
      SmallBitmap(br);
    }
  }

  lemma AtomFits(P: Code, s: nat, a: Atom)
    requires OneChar(a) && At(P, s, AtomCode(a, 0))
    ensures s < |P| && (P[s] == CHARSET ==> s + 1 < |P| && s + 2 + P[s + 1] <= |P|) && (P[s] == EXACTN ==> s + 2 < |P|)
  {
    AtomBytes(P, s, a);
    hide At, AtomCode, MapAt;
  }

  lemma FourIs(P: Code, m: nat)
    requires FourParts(P, m)
    ensures Program(P) && IsEnd(P, m) && Head(P, m) == 0
  {
  }

  lemma LossBytes(P: Code, m: nat, b: nat)
    requires Program(P) && IsEnd(P, m) && Head(P, m) + 3 == b < |P| && m + 3 < |P| && Consumes(P[m + 3])
    requires P[m + 3] == CHARSET ==> m + 4 < |P| && m + 5 + P[m + 4] <= |P|
    requires P[m + 3] == EXACTN ==> m + 5 < |P|
    requires P[b] == CHARSET ==> b + 1 < |P| && b + 2 + P[b + 1] <= |P|
    requires P[b] == EXACTN ==> b + 2 < |P|
    ensures LostByCountByte(P, m) <==>
      P[m + 3] == CHARSET && P[b] == EXACTN && MapHas(MapAt(P, m + 3), P[b + 2]) && !MapHas(MapAt(P, m + 3), 1)
    ensures LostByFullMap(P, m) <==>
      P[m + 3] == EXACTN && P[b] == CHARSET && P[b + 1] == 32 && MapHas(MapAt(P, b), P[m + 5])
  {
    LoopIs(P, m);
    AfterLoop(P, m);
    assert SkipMemory(P, m + 3) == m + 3;
    hide Program, MapHas, IsEnd, SkipMemory, InsLen, Place;
  }

  // A loop over the class a, before the class b, has one of the two defects exactly when the
  // classes are as above.
  lemma BytesLose(P: Code, m: nat, a: Atom, b: Atom)
    requires OneChar(a) && OneChar(b) && Program(P) && IsEnd(P, m) && Head(P, m) >= 0
    requires At(P, Head(P, m) + 3, AtomCode(a, 0)) && At(P, m + 3, AtomCode(b, 0))
    ensures LostByCountByte(P, m) <==> CountByteHits(a, b)
    ensures LostByFullMap(P, m) <==> FullMapHits(a, b)
  {
    hide *;
    var x: nat := Head(P, m) + 3;
    AtomFits(P, x, a);
    AtomFits(P, m + 3, b);
    AtomConsumes(P, m + 3, b);
    LossBytes(P, m, x);
    CountBytes(P, x, m + 3, a, b);
    MapBytes(P, x, m + 3, a, b);
  }

  lemma AtomConsumes(P: Code, s: nat, a: Atom)
    requires OneChar(a) && At(P, s, AtomCode(a, 0))
    ensures s < |P| && Consumes(P[s])
  {
    AtomEats(P, s, a, 0);
  }

  lemma CountBytes(P: Code, x: nat, y: nat, a: Atom, b: Atom)
    requires OneChar(a) && OneChar(b) && At(P, x, AtomCode(a, 0)) && At(P, y, AtomCode(b, 0))
    ensures x < |P| && y < |P|
    ensures CountByteHits(a, b) <==>
      && P[y] == CHARSET && P[x] == EXACTN && y + 1 < |P| && y + 2 + P[y + 1] <= |P| && x + 2 < |P|
      && MapHas(MapAt(P, y), P[x + 2]) && !MapHas(MapAt(P, y), 1)
  {
    AtomBytes(P, x, a);
    AtomBytes(P, y, b);
    hide At, AtomCode, BracketHas, MapHas, MapAt, BracketMap, Trim;
    if a.Chr? && b.Set? && !b.br.negated {
      SetBytes(b.br, a.c);
      SetBytes(b.br, 1);
    }
  }

  lemma MapBytes(P: Code, x: nat, y: nat, a: Atom, b: Atom)
    requires OneChar(a) && OneChar(b) && At(P, x, AtomCode(a, 0)) && At(P, y, AtomCode(b, 0))
    ensures x < |P| && y < |P|
    ensures FullMapHits(a, b) <==>
      && P[y] == EXACTN && P[x] == CHARSET && x + 1 < |P| && x + 2 + P[x + 1] <= |P| && y + 2 < |P|
      && P[x + 1] == 32 && MapHas(MapAt(P, x), P[y + 2])
  {
    AtomBytes(P, x, a);
    AtomBytes(P, y, b);
    hide At, AtomCode, BracketHas, MapHas, MapAt, BracketMap, Trim;
    if a.Set? && !a.br.negated && b.Chr? {
      MapLength(P, x);
      FullMap(a.br);
      SetBytes(a.br, b.c);
    }
  }

  lemma MapLength(P: Code, s: nat)
    requires s + 1 < |P| && s + 2 + P[s + 1] <= |P|
    ensures |MapAt(P, s)| == P[s + 1]
  {
  }

  // The loop of a*b has one of the two defects exactly when the classes are as above.
  lemma StarThenLosses(a: Atom, b: Atom)
    requires OneChar(a) && OneChar(b) && WellFormedAtom(a) && WellFormedAtom(b)
    ensures
      var P := RegexCode(StarThen(a, b), 0);
      var m := 3 + |AtomCode(a, 0)|;
      && Program(P) && IsEnd(P, m)
      && (LostByCountByte(P, m) <==> CountByteHits(a, b))
      && (LostByFullMap(P, m) <==> FullMapHits(a, b))
  {
    hide *;
    var P := RegexCode(StarThen(a, b), 0);
    var m := 3 + |AtomCode(a, 0)|;
    StarThenLayout(a, b);
    StarThenParts(a, b);
    FourIs(P, m);
    BytesLose(P, m, a, b);
  }

  // For these patterns the condition of the main theorem, told from the classes.
  lemma StarThenHarmless(a: Atom, b: Atom)
    requires OneChar(a) && OneChar(b) && WellFormedAtom(a) && WellFormedAtom(b)
    ensures Program(RegexCode(StarThen(a, b), 0))
    ensures Harmless(RegexCode(StarThen(a, b), 0)) <==> !CountByteHits(a, b) && !FullMapHits(a, b)
  {
    var P := RegexCode(StarThen(a, b), 0);
    var m := 3 + |AtomCode(a, 0)|;
    StarThenParts(a, b);
    StarThenLosses(a, b);
    hide RegexCode, AtomCode, Program, FourParts, IsEnd, LostByCountByte, LostByFullMap, CountByteHits, FullMapHits, StarThen;
    forall k: nat | IsEnd(P, k)
      ensures k == m
    {
      OnlyLoop(P, m, k);
    }
  }

  // For these patterns the matcher is right on every text exactly when neither defect applies.
  lemma StarThenExact(a: Atom, b: Atom)
    requires OneChar(a) && OneChar(b) && WellFormedAtom(a) && WellFormedAtom(b)
    ensures Program(RegexCode(StarThen(a, b), 0))
    ensures
      var P := RegexCode(StarThen(a, b), 0);
      Harmless(P) <==> forall t: Text, pos: nat | pos <= |t| :: Right(P, RegexLang(StarThen(a, b)), t, pos)
  {
    StarThenShape(a, b);
    StarThenLayout(a, b);
    SteadyExact(StarThen(a, b));
  }

  // ----- a text of one character that is missed -----

  lemma LastIsWord(a: Atom, b: Atom, c: byte)
    requires OneChar(a) && OneChar(b) && AtomHas(b, c)
    ensures [c] in RegexLang(StarThen(a, b))
  {
    AtomHasLang(b, [c]);
    var A := AtomLang(a);
    OpsCollapse(A, [Star]);
    StarOps();
    StarEmpty(A);
    CatIntro(AtomLang(b), iset{[]}, [c], []);
    assert [c] + [] == [c];
    var tail := Then(Single(b), Empty);
    assert BranchLang(Empty) == iset{[]} && PieceLang(Single(b)) == AtomLang(b);
    assert BranchLang(tail) == Cat(AtomLang(b), iset{[]});
    CatIntro(PieceLang(Rep(a, [Star])), BranchLang(tail), [], [c]);
    assert [] + [c] == [c];
  }

  lemma NeverEmpty(a: Atom, b: Atom)
    requires OneChar(a) && OneChar(b)
    ensures [] !in RegexLang(StarThen(a, b))
  {
    var tail := Then(Single(b), Empty);
    var A := PieceLang(Rep(a, [Star]));
    if [] in Cat(A, BranchLang(tail)) {
      var u, v := CatElim(A, BranchLang(tail), []);
      assert BranchLang(tail) == Cat(PieceLang(Single(b)), BranchLang(Empty));
      var x, y := CatElim(AtomLang(b), BranchLang(Empty), v);
      AtomHasLang(b, x);
    }
  }

  lemma EndsWord(P: Code, e: nat, b: Atom, c: byte)
    requires OneChar(b) && At(P, e, AtomCode(b, 0)) && e + |AtomCode(b, 0)| == |P| && AtomHas(b, c)
    ensures Acc(P, [c], e, 0, 1)
  {
    AtomEats(P, e, b, 0);
    hide At, AtomCode, AtomHas, Eats, Succ, Acc, InsLen;
    OneSucc(P, [c], e, 0);
    AccEnd(P, [c], 1, 1);
    AccStep(P, [c], e, 0, 1);
  }

  lemma HeadSucc(P: Code, m: nat, t: Text)
    requires Program(P) && IsEnd(P, m) && Head(P, m) == 0
    ensures 0 < |P| && (m + 3, 0) in Succ(P, t, 0, 0)
  {
    LoopIs(P, m);
  }

  lemma NotWord(a: Atom, b: Atom, u: Text)
    requires OneChar(a) && OneChar(b) && WellFormedAtom(a) && WellFormedAtom(b) && |u| == 0
    ensures !Word(RegexCode(StarThen(a, b), 0), u)
  {
    hide RegexCode, RegexLang, Acc;
    StarThenShape(a, b);
    StarThenLayout(a, b);
    CodeMeansLanguage(StarThen(a, b), u, 0, 0);
    NeverEmpty(a, b);
    assert u[0..0] == [];
  }

  // A character of both classes, where the loop has a defect, is a word that is not found.
  lemma StarThenMisses(a: Atom, b: Atom, c: byte)
    requires OneChar(a) && OneChar(b) && WellFormedAtom(a) && WellFormedAtom(b)
    requires CountByteHits(a, b) || FullMapHits(a, b)
    requires AtomHas(a, c) && AtomHas(b, c)
    ensures Program(RegexCode(StarThen(a, b), 0))
    ensures [c] in RegexLang(StarThen(a, b)) && MatchEnd(RegexCode(StarThen(a, b), 0), [c], 0) == None
  {
    hide *;
    var r := StarThen(a, b);
    var P := RegexCode(r, 0);
    var m := 3 + |AtomCode(a, 0)|;
    StarThenShape(a, b);
    StarThenLayout(a, b);
    StarThenLosses(a, b);
    LastIsWord(a, b, c);
    AtomEats(P, 3, a, 0);
    SteadyLoops(r, m);
    EndsWord(P, m + 3, b, c);
    OneIsTrap(P, m, c, a, b);
    TrapFindsNothing(P, m, [c], 0);
  }

  lemma OneIsTrap(P: Code, m: nat, c: byte, a: Atom, b: Atom)
    requires OneChar(a) && OneChar(b) && WellFormedAtom(a) && WellFormedAtom(b) && P == RegexCode(StarThen(a, b), 0)
    requires Program(P) && IsEnd(P, m) && NoWayRound(P, m) && Head(P, m) == 0
    requires LostByCountByte(P, m) || LostByFullMap(P, m)
    requires 3 < |P| && InsLen(P, 3) > 0 && Eats(P, 3, c) && Acc(P, [c], m + 3, 0, 1)
    ensures Trap(P, m, [c], 0)
  {
    hide *;
    var d := CommonStart(P, m);
    var t: Text := [c];
    FromStart(P, t);
    HeadSucc(P, m, t);
    JoinedStep(P, t, 0, 0, (m + 3, 0));
    forall u: Text | |u| < |t|
      ensures !Word(P, u)
    {
      NotWord(a, b, u);
    }
    TrapIs(P, m, t, 0, c);
  }

  // A set of listed characters.
  function Listed(items: seq<Item>): Atom {
    Set(Bracket(false, false, items, false))
  }

  lemma ListedIs(c: byte, d: byte)
    requires PlainInBracket(c) && PlainInBracket(d) && c != '^' as int
    ensures WellFormedAtom(Listed([One(c)])) && WellFormedAtom(Listed([One(c), One(d)]))
    ensures forall e: byte :: BracketHas(Listed([One(c)]).br, e) <==> e == c
    ensures forall e: byte :: BracketHas(Listed([One(c), One(d)]).br, e) <==> e == c || e == d
  {
    var one, two := [One(c)], [One(c), One(d)];
    assert one[0] == One(c) && two[0] == One(c) && two[1] == One(d);
    forall e: byte
      ensures ItemsHave(one, e) <==> e == c
      ensures ItemsHave(two, e) <==> e == c || e == d
    {
      assert One(c) in one && One(c) in two && One(d) in two;
      assert ItemHas(One(c), e) <==> e == c;
      assert ItemHas(One(d), e) <==> e == d;
    }
  }

  // a*[a] does not find the text a.
  lemma CountByteMisses()
    ensures
      var c: byte := 'a' as int;
      var r := StarThen(Chr(c), Listed([One(c)]));
      var P := RegexCode(r, 0);
      && WellFormed(r) && SimpleRegex(r) && |P| <= MAX_OFFSET
      && Program(P) && !Harmless(P)
      && [c] in RegexLang(r) && MatchEnd(P, [c], 0) == None
  {
    var c: byte := 'a' as int;
    var a, b := Chr(c), Listed([One(c)]);
    ListedIs(c, c);
    hide BracketHas, RegexCode, RegexLang, StarThen;
    assert CountByteHits(a, b);
    StarThenShape(a, b);
    StarThenLayout(a, b);
    StarThenHarmless(a, b);
    StarThenMisses(a, b, c);
  }

  // A set of a and the last character, repeated, and then a: the text a is not found.
  lemma FullMapMisses()
    ensures
      var c: byte, d: byte := 'a' as int, 255;
      var r := StarThen(Listed([One(c), One(d)]), Chr(c));
      var P := RegexCode(r, 0);
      && WellFormed(r) && SimpleRegex(r) && |P| <= MAX_OFFSET
      && Program(P) && !Harmless(P)
      && [c] in RegexLang(r) && MatchEnd(P, [c], 0) == None
  {
    var c: byte, d: byte := 'a' as int, 255;
    var a, b := Listed([One(c), One(d)]), Chr(c);
    ListedIs(c, d);
    hide RegexCode, RegexLang, StarThen;
    assert BracketHas(a.br, d) && d >= 248;
    assert FullMapHits(a, b);
    hide BracketHas;
    StarThenShape(a, b);
    StarThenLayout(a, b);
    StarThenHarmless(a, b);
    StarThenMisses(a, b, c);
  }
}
