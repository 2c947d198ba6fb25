/**
 Tab formats, `%<column>t' and `%*t', in a format string: the regular expression that finds
 them, and how a string falls into segments and tab formats. A run of percent signs before
 one decides by its parity whether it is one.
 */
module TabFormat {
  import opened RegexBytes
  import opened RegexSyntax
  import opened RegexGen
  import opened RegexNfa
  import opened RegexVmProof
  import opened RegexBlocks
  import opened RegexMatch
  import opened RegexTame

  const PERCENT: byte := 37
  const STAR: byte := 42
  const ZERO: byte := 48
  const NINE: byte := 57
  const TEE: byte := 116

  // ----- the pattern, %([0-9]+|[*])t -----

  function DigitSet(): Atom { Set(Bracket(false, false, [Range(ZERO, NINE)], false)) }

  function StarSet(): Atom { Set(Bracket(false, false, [One(STAR)], false)) }

  function ColumnTree(): Regex {
    Or(Then(Rep(DigitSet(), [Plus]), Empty), Last(Then(Single(StarSet()), Empty)))
  }

  function TabTree(): Regex {
    Last(Then(Single(Chr(PERCENT)), Then(Single(Group(ColumnTree())), Then(Single(Chr(TEE)), Empty))))
  }

  lemma TabTreeText()
    ensures RegexText(TabTree()) == [PERCENT] + ['(' as int, '[' as int, ZERO, '-' as int, NINE, ']' as int, '+' as int]
      + ['|' as int, '[' as int, STAR, ']' as int, ')' as int] + [TEE]
  {
    hide BracketText;
    SetTexts();
    assert OpsText([Plus]) == ['+' as int];
    var digits := Then(Rep(DigitSet(), [Plus]), Empty);
    var star := Then(Single(StarSet()), Empty);
    assert BranchText(digits) == ['[' as int, ZERO, '-' as int, NINE, ']' as int] + ['+' as int];
    assert BranchText(star) == ['[' as int, STAR, ']' as int];
    assert RegexText(ColumnTree()) == BranchText(digits) + ['|' as int] + BranchText(star);
    var last := Then(Single(Chr(TEE)), Empty);
    assert BranchText(last) == [TEE];
    var mid := Then(Single(Group(ColumnTree())), last);
    assert BranchText(mid) == ['(' as int] + RegexText(ColumnTree()) + [')' as int] + [TEE];
    assert BranchText(TabTree().branch) == [PERCENT] + BranchText(mid);
  }

  lemma SetTexts()
    ensures BracketText(DigitSet().br) == ['[' as int, ZERO, '-' as int, NINE, ']' as int]
    ensures BracketText(StarSet().br) == ['[' as int, STAR, ']' as int]
  {
    assert ItemsText([Range(ZERO, NINE)]) == [ZERO, '-' as int, NINE];
    assert ItemsText([One(STAR)]) == [STAR];
  }

  // ----- what it matches -----

  predicate Digits(w: Text) {
    forall c | c in w :: ZERO <= c <= NINE
  }

  predicate IsColumn(w: Text) {
    w == [STAR] || (w != [] && Digits(w))
  }

  predicate IsTab(w: Text) {
    |w| >= 3 && w[0] == PERCENT && w[|w| - 1] == TEE && IsColumn(w[1..|w| - 1])
  }

  lemma SetLang(c: byte)
    ensures BracketHas(DigitSet().br, c) <==> ZERO <= c <= NINE
    ensures BracketHas(StarSet().br, c) <==> c == STAR
  {
    assert Range(ZERO, NINE) in DigitSet().br.items;
    assert One(STAR) in StarSet().br.items;
  }

  lemma {:induction false} DigitPower(n: nat, w: Text)
    ensures w in Power(AtomLang(DigitSet()), n) <==> |w| == n && Digits(w)
  {
    var A := AtomLang(DigitSet());
    if n > 0 {
      if w in Power(A, n) {
        var u, v := CatElim(A, Power(A, n - 1), w);
        DigitPower(n - 1, v);
        SetLang(u[0]);
      }
      if |w| == n && Digits(w) {
        assert Digits(w[1..]) by {
          assert forall c | c in w[1..] :: c in w;
        }
        DigitPower(n - 1, w[1..]);
        SetLang(w[0]);
        assert w[0] in w && w[..1][0] == w[0];
        CatIntro(A, Power(A, n - 1), w[..1], w[1..]);
        assert w == w[..1] + w[1..];
      }
    }
  }

  lemma ColumnLanguage(w: Text)
    ensures w in RegexLang(ColumnTree()) <==> IsColumn(w)
  {
    hide InCat, InStar, AtomLang;
    var A, B := AtomLang(DigitSet()), AtomLang(StarSet());
    assert ApplyOps(A, [Plus]) == PlusOf(A) by {
      assert [Plus][..0] == [];
    }
    var digits := Then(Rep(DigitSet(), [Plus]), Empty);
    var star := Then(Single(StarSet()), Empty);
    CatUnit(PlusOf(A), w);
    CatUnit(B, w);
    assert w in BranchLang(digits) <==> w in PlusOf(A);
    assert w in BranchLang(star) <==> w in B;
    PlusDigits(w);
    StarWord(w);
  }

  lemma CatUnit(A: Lang, w: Text)
    ensures w in Cat(A, iset{[]}) <==> w in A
  {
    if w in A {
      CatIntro(A, iset{[]}, w, []);
      assert w + [] == w;
    }
    if w in Cat(A, iset{[]}) {
      var u, v := CatElim(A, iset{[]}, w);
      assert w == u;
    }
  }

  lemma PlusDigits(w: Text)
    ensures w in PlusOf(AtomLang(DigitSet())) <==> w != [] && Digits(w)
  {
    hide InCat, InStar, AtomLang;
    var A := AtomLang(DigitSet());
    if w in PlusOf(A) {
      var u, v := CatElim(A, StarOf(A), w);
      PowerOne(A, u);
      DigitPower(1, u);
      PlusToStar(A, w);
      var n := StarPower(A, w);
      DigitPower(n, w);
    }
    if w != [] && Digits(w) {
      DigitPower(|w|, w);
      PowerStar(A, |w|, w);
      StarToPlus(A, w);
    }
  }

  lemma StarPower(A: Lang, w: Text) returns (n: nat)
    requires w in StarOf(A)
    ensures w in Power(A, n)
  {
    n :| w in Power(A, n);
  }

  lemma PowerStar(A: Lang, n: nat, w: Text)
    requires w in Power(A, n)
    ensures w in StarOf(A)
  {
  }

  lemma StarWord(w: Text)
    ensures w in AtomLang(StarSet()) <==> w == [STAR]
  {
    if |w| == 1 {
      SetLang(w[0]);
    }
  }

  // The pattern matches the tab formats and nothing else.
  lemma TabLanguage(w: Text)
    ensures w in RegexLang(TabTree()) <==> IsTab(w)
  {
    hide InCat;
    var P, C, T := AtomLang(Chr(PERCENT)), RegexLang(ColumnTree()), AtomLang(Chr(TEE));
    var last := Then(Single(Chr(TEE)), Empty);
    var mid := Then(Single(Group(ColumnTree())), last);
    assert RegexLang(TabTree()) == BranchLang(TabTree().branch);
    assert BranchLang(TabTree().branch) == Cat(P, BranchLang(mid));
    assert BranchLang(mid) == Cat(C, BranchLang(last));
    forall v: Text
      ensures v in BranchLang(last) <==> v == [TEE]
    {
      CatUnit(T, v);
    }
    if w in RegexLang(TabTree()) {
      var a, x := CatElim(P, BranchLang(mid), w);
      var b, c := CatElim(C, BranchLang(last), x);
      ColumnLanguage(b);
      assert w[1..|w| - 1] == b;
    }
    if IsTab(w) {
      var b := w[1..|w| - 1];
      ColumnLanguage(b);
      CatIntro(C, BranchLang(last), b, [TEE]);
      CatIntro(P, BranchLang(mid), [PERCENT], b + [TEE]);
      assert w == [PERCENT] + (b + [TEE]);
    }
  }

  lemma TabTreeTame()
    ensures WellFormed(TabTree()) && SimpleRegex(TabTree()) && |RegexCode(TabTree(), 0)| <= MAX_OFFSET
    ensures Program(RegexCode(TabTree(), 0)) && Harmless(RegexCode(TabTree(), 0))
  {
    hide TabTree, RegexCode, WellFormed, SimpleRegex, TameRegex, Program, Harmless;
    TabTreeWellFormed();
    TabTreeIsTame();
    TabTreeShort();
    TameIsHarmless(TabTree());
  }

  lemma TabTreeWellFormed()
    ensures WellFormed(TabTree()) && SimpleRegex(TabTree())
  {
    hide *;
    SetsWellFormed();
    var digits := Then(Rep(DigitSet(), [Plus]), Empty);
    var star := Then(Single(StarSet()), Empty);
    var last := Then(Single(Chr(TEE)), Empty);
    PieceFits(Rep(DigitSet(), [Plus]), Empty);
    PieceFits(Single(StarSet()), Empty);
    PieceFits(Single(Chr(TEE)), Empty);
    LastFits(star);
    OrFits(digits, Last(star));
    TreesAre();
    GroupFits(ColumnTree());
    PieceFits(Single(Group(ColumnTree())), last);
    PieceFits(Single(Chr(PERCENT)), Then(Single(Group(ColumnTree())), last));
    LastFits(Then(Single(Chr(PERCENT)), Then(Single(Group(ColumnTree())), last)));
  }

  predicate AtomFits(a: Atom) {
    WellFormedAtom(a) && SimpleAtom(a)
  }

  predicate BranchFits(b: Branch) {
    WellFormedBranch(b) && SimpleBranch(b)
  }

  predicate TreeFits(r: Regex) {
    WellFormed(r) && SimpleRegex(r)
  }

  lemma SetsWellFormed()
    ensures AtomFits(DigitSet()) && AtomFits(StarSet()) && AtomFits(Chr(TEE)) && AtomFits(Chr(PERCENT)) && BranchFits(Empty)
    ensures !DigitSet().Group?
  {
  }

  lemma GroupFits(r: Regex)
    requires TreeFits(r)
    ensures AtomFits(Group(r))
  {
    hide WellFormed, SimpleRegex;
  }

  lemma PieceFits(p: Piece, rest: Branch)
    requires AtomFits(p.atom) && BranchFits(rest)
    requires p.Single? || (p.Rep? && p.ops == [Plus] && !p.atom.Group?)
    ensures BranchFits(Then(p, rest))
  {
    hide WellFormedAtom, SimpleAtom;
    var b := Then(p, rest);
    assert b.first == p && b.rest == rest;
    assert WellFormedPiece(p) && SimplePiece(p);
  }

  lemma LastFits(b: Branch)
    requires BranchFits(b)
    ensures TreeFits(Last(b))
  {
    hide WellFormedBranch, SimpleBranch;
  }

  lemma OrFits(b: Branch, r: Regex)
    requires BranchFits(b) && TreeFits(r)
    ensures TreeFits(Or(b, r))
  {
    hide WellFormedBranch, SimpleBranch;
  }

  lemma TreesAre()
    ensures ColumnTree() == Or(Then(Rep(DigitSet(), [Plus]), Empty), Last(Then(Single(StarSet()), Empty)))
    ensures TabTree() ==
      Last(Then(Single(Chr(PERCENT)), Then(Single(Group(ColumnTree())), Then(Single(Chr(TEE)), Empty))))
    ensures TreeFits(TabTree()) ==> WellFormed(TabTree()) && SimpleRegex(TabTree())
  {
    hide WellFormed, SimpleRegex;
  }

  lemma TabTreeIsTame()
    ensures TameRegex(TabTree(), NO_LITERALS)
  {
    hide TameAtom, TameBranch, TameRegex, ManyOk, Digits;
    SetsAreTame();
    TameOne(Rep(DigitSet(), [Plus]));
    TameOne(Single(StarSet()));
    TameLast(Then(Single(StarSet()), Empty));
    TameOr(Then(Rep(DigitSet(), [Plus]), Empty), Last(Then(Single(StarSet()), Empty)));
    var last := Then(Single(Chr(TEE)), Empty);
    TameChar(TEE);
    TameChar(PERCENT);
    TameOne(Single(Chr(TEE)));
    TameGroup(ColumnTree());
    TameThen(Single(Group(ColumnTree())), last);
    TameThen(Single(Chr(PERCENT)), Then(Single(Group(ColumnTree())), last));
    TameLast(TabTree().branch);
  }

  lemma SetsAreTame()
    ensures TameAtom(DigitSet(), NO_LITERALS) && TameAtom(StarSet(), NO_LITERALS)
  {
    hide BracketHas;
    forall c: byte | c >= 248
      ensures !BracketHas(DigitSet().br, c) && !BracketHas(StarSet().br, c)
    {
      SetLang(c);
    }
  }

  lemma TameChar(c: byte)
    ensures TameAtom(Chr(c), NO_LITERALS)
  {
  }

  lemma TameGroup(r: Regex)
    requires TameRegex(r, NO_LITERALS)
    ensures TameAtom(Group(r), NO_LITERALS)
  {
  }

  lemma TameThen(p: Piece, rest: Branch)
    requires TameAtom(p.atom, NO_LITERALS) && (p.atom.Chr? ==> p.Single?)
    requires TameBranch(rest, NO_LITERALS)
    ensures TameBranch(Then(p, rest), NO_LITERALS)
  {
    hide TameAtom, ManyOk;
  }

  lemma TameOne(p: Piece)
    requires TameAtom(p.atom, NO_LITERALS) && (p.atom.Chr? ==> p.Single?)
    ensures TameBranch(Then(p, Empty), NO_LITERALS)
  {
    hide TameAtom, ManyOk;
    assert TameBranch(Empty, NO_LITERALS);
  }

  lemma TameLast(b: Branch)
    requires TameBranch(b, NO_LITERALS)
    ensures TameRegex(Last(b), NO_LITERALS)
  {
    hide TameBranch;
  }

  lemma TameOr(b: Branch, rest: Regex)
    requires TameBranch(b, NO_LITERALS) && TameRegex(rest, NO_LITERALS)
    ensures TameRegex(Or(b, rest), NO_LITERALS)
  {
    hide TameBranch;
  }

  lemma TabTreeShort()
    ensures |RegexCode(TabTree(), 0)| <= MAX_OFFSET
  {
    hide BracketCode, ZeroOk, ManyOk, GroupsB, Op1, FirstAltEnd, GroupsR;
    var digits := Then(Rep(DigitSet(), [Plus]), Empty);
    var star := Then(Single(StarSet()), Empty);
    var last := Then(Single(Chr(TEE)), Empty);
    var mid := Then(Single(Group(ColumnTree())), last);
    assert |PieceCode(digits.first, 1)| <= 50;
    assert |BranchCode(digits, [], 1)| <= 50;
    assert |BranchCode(star, [], 1)| <= 50;
    assert |RegexCode(ColumnTree(), 1)| <= 150;
    assert |AtomCode(Group(ColumnTree()), 0)| <= 160;
    assert |BranchCode(last, [], 1)| <= 10;
    assert |BranchCode(mid, [PERCENT], 0)| <= 200;
  }

  // ----- where the tab formats are -----

  predicate TabAt(w: Text, s: nat, e: nat) {
    s <= e <= |w| && IsTab(w[s..e])
  }

  // The percent signs just before s.
  function PercentsBefore(w: Text, s: nat): (n: nat)
    requires s <= |w|
    ensures n <= s
  {
    if s > 0 && w[s - 1] == PERCENT then 1 + PercentsBefore(w, s - 1) else 0
  }

  // After an odd number of percent signs it is no tab format: the last of them escapes its own.
  predicate RealTab(w: Text, s: nat, e: nat) {
    TabAt(w, s, e) && PercentsBefore(w, s) % 2 == 0
  }

  ghost predicate NoTabBefore(w: Text, s: nat) {
    forall k: nat, e: nat | k < s :: !RealTab(w, k, e)
  }

  ghost predicate FirstTab(w: Text, s: nat, e: nat) {
    RealTab(w, s, e) && NoTabBefore(w, s)
  }

  lemma TabBytes(w: Text, s: nat, e: nat)
    requires TabAt(w, s, e)
    ensures s + 3 <= e <= |w| && w[s] == PERCENT && w[e - 1] == TEE
    ensures forall k | s < k < e - 1 :: w[k] != PERCENT && w[k] != TEE
    ensures IsColumn(w[s + 1..e - 1])
  {
    var t := w[s..e];
    var u, v := t[1..|t| - 1], w[s + 1..e - 1];
    assert |u| == |v| && forall k | 0 <= k < |u| :: u[k] == v[k];
    assert u == v;
    forall k | s < k < e - 1
      ensures w[k] != PERCENT && w[k] != TEE
    {
      assert w[k] == t[1..|t| - 1][k - s - 1];
      assert w[k] in t[1..|t| - 1];
    }
  }

  lemma TabEndUnique(w: Text, s: nat, e: nat, e': nat)
    requires TabAt(w, s, e) && TabAt(w, s, e')
    ensures e == e'
  {
    hide TabAt;
    TabBytes(w, s, e);
    TabBytes(w, s, e');
  }

  // No tab format begins inside another.
  lemma NoTabInside(w: Text, s: nat, e: nat, k: nat, e': nat)
    requires TabAt(w, s, e) && s < k < e
    ensures !TabAt(w, k, e')
  {
    TabBytes(w, s, e);
    if TabAt(w, k, e') {
      TabBytes(w, k, e');
    }
  }

  // ----- the layout of a format string -----

  // Segments, with the columns of the tab formats between them.
  datatype Layout = End(segment: Text) | Tab(segment: Text, column: Text, rest: Layout)

  ghost function Parse(w: Text): Layout
    decreases |w|
  {
    if s: nat, e: nat :| FirstTab(w, s, e) then
      TabBytes(w, s, e);
      Tab(w[..s], w[s + 1..e - 1], Parse(w[e..]))
    else End(w)
  }

  function TabText(column: Text): Text {
    [PERCENT] + column + [TEE]
  }

  // The format string with a layout.
  function Show(l: Layout): Text {
    match l
    case End(segment) => segment
    case Tab(segment, column, rest) => segment + TabText(column) + Show(rest)
  }

  ghost predicate NoTab(w: Text) {
    forall k: nat, e: nat :: !RealTab(w, k, e)
  }

  // No segment has a tab format of its own, nor a percent sign that would escape the next one.
  ghost predicate Good(l: Layout) {
    NoTab(l.segment)
    && (l.Tab? ==> IsColumn(l.column) && PercentsBefore(l.segment, |l.segment|) % 2 == 0 && Good(l.rest))
  }

  lemma FirstTabUnique(w: Text, s: nat, e: nat, s': nat, e': nat)
    requires FirstTab(w, s, e) && FirstTab(w, s', e')
    ensures s == s' && e == e'
  {
    hide IsTab;
    assert !(s < s') && !(s' < s);
    TabEndUnique(w, s, e, e');
  }

  lemma {:induction false} FirstTabExists(w: Text, s: nat, e: nat) returns (s': nat, e': nat)
    requires RealTab(w, s, e)
    ensures FirstTab(w, s', e')
    decreases s
  {
    if k: nat, x: nat :| k < s && RealTab(w, k, x) {
      s', e' := FirstTabExists(w, k, x);
    } else {
      s', e' := s, e;
    }
  }

  lemma ParseTab(w: Text, s: nat, e: nat)
    requires FirstTab(w, s, e)
    ensures s + 3 <= e <= |w| && Parse(w) == Tab(w[..s], w[s + 1..e - 1], Parse(w[e..]))
  {
    hide FirstTab;
    SegmentEven(w, s, e);
    forall s': nat, e': nat | FirstTab(w, s', e')
      ensures s' == s && e' == e
    {
      FirstTabUnique(w, s, e, s', e');
    }
  }

  lemma ParseEnd(w: Text)
    requires NoTab(w)
    ensures Parse(w) == End(w)
  {
    hide RealTab;
    assert forall s: nat, e: nat :: !FirstTab(w, s, e);
  }

  lemma {:induction false} PercentsInPrefix(x: Text, y: Text, s: nat)
    requires s <= |x|
    ensures PercentsBefore(x + y, s) == PercentsBefore(x, s)
    decreases s
  {
    if s > 0 {
      PercentsInPrefix(x, y, s - 1);
    }
  }

  // After something that is no percent sign the count starts anew.
  lemma {:induction false} PercentsInSuffix(x: Text, y: Text, s: nat)
    requires s <= |y| && (x != [] ==> x[|x| - 1] != PERCENT)
    ensures PercentsBefore(x + y, |x| + s) == PercentsBefore(y, s)
    decreases s
  {
    if s > 0 {
      PercentsInSuffix(x, y, s - 1);
    } else if x != [] {
      assert (x + y)[|x| - 1] == x[|x| - 1];
    }
  }

  lemma RealInPrefix(x: Text, y: Text, k: nat, e: nat)
    requires e <= |x|
    ensures RealTab(x + y, k, e) <==> RealTab(x, k, e)
  {
    if k <= e {
      PercentsInPrefix(x, y, k);
      assert (x + y)[k..e] == x[k..e];
    }
  }

  lemma RealInSuffix(x: Text, y: Text, k: nat, e: nat)
    requires x != [] ==> x[|x| - 1] != PERCENT
    ensures RealTab(x + y, |x| + k, |x| + e) <==> RealTab(y, k, e)
  {
    if k <= e <= |y| {
      PercentsInSuffix(x, y, k);
      assert (x + y)[|x| + k..|x| + e] == y[k..e];
    }
  }

  lemma SegmentHasNoTab(w: Text, s: nat)
    requires s <= |w| && NoTabBefore(w, s)
    ensures NoTab(w[..s])
  {
    forall k: nat, e: nat
      ensures !RealTab(w[..s], k, e)
    {
      if e <= s {
        RealInPrefix(w[..s], w[s..], k, e);
        assert w[..s] + w[s..] == w;
        if RealTab(w[..s], k, e) {
          TabBytes(w[..s], k, e);
        }
      }
    }
  }

  // Parsing loses nothing, and finds every tab format.
  lemma {:induction false} ShowParse(w: Text)
    ensures Show(Parse(w)) == w && Good(Parse(w))
    decreases |w|
  {
    hide RealTab, IsTab, IsColumn, Parse, PercentsBefore;
    if s: nat, e: nat :| FirstTab(w, s, e) {
      ParseTab(w, s, e);
      ShowParse(w[e..]);
      SegmentHasNoTab(w, s);
      SegmentEven(w, s, e);
      assert w == w[..s] + TabText(w[s + 1..e - 1]) + w[e..];
    } else {
      forall k: nat, x: nat
        ensures !RealTab(w, k, x)
      {
        if RealTab(w, k, x) {
          var s, e := FirstTabExists(w, k, x);
        }
      }
      ParseEnd(w);
    }
  }

  lemma SegmentEven(w: Text, s: nat, e: nat)
    requires FirstTab(w, s, e)
    ensures s + 3 <= e <= |w| && w[s] == PERCENT && w[e - 1] == TEE
    ensures IsColumn(w[s + 1..e - 1]) && PercentsBefore(w[..s], s) % 2 == 0
  {
    TabBytes(w, s, e);
    PercentsInPrefix(w[..s], w[s..], s);
    assert w[..s] + w[s..] == w;
  }

  // The layout is the only one there is.
  lemma {:induction false} ParseShow(l: Layout)
    requires Good(l)
    ensures Parse(Show(l)) == l
    decreases l
  {
    hide RealTab, IsTab, IsColumn;
    match l
    case End(segment) =>
      ParseEnd(segment);
    case Tab(segment, column, rest) =>
      var w := Show(l);
      var s, e := |segment|, |segment| + 2 + |column|;
      ShownIsFirst(segment, column, Show(rest));
      ParseTab(w, s, e);
      assert w[..s] == segment && w[s + 1..e - 1] == column && w[e..] == Show(rest);
      ParseShow(rest);
  }

  lemma ShownIsFirst(segment: Text, column: Text, more: Text)
    requires NoTab(segment) && IsColumn(column) && PercentsBefore(segment, |segment|) % 2 == 0
    ensures FirstTab(segment + TabText(column) + more, |segment|, |segment| + 2 + |column|)
  {
    hide IsTab, IsColumn, TabAt, TabText, NoTab;
    var tail := TabText(column) + more;
    ShownIsTab(segment, column, more);
    assert segment + TabText(column) + more == segment + tail;
    PercentsInPrefix(segment, tail, |segment|);
    forall k: nat, x: nat | k < |segment|
      ensures !RealTab(segment + tail, k, x)
    {
      NoneEarlier(segment, tail, k, x);
    }
  }

  lemma ShownIsTab(segment: Text, column: Text, more: Text)
    requires IsColumn(column)
    ensures |TabText(column)| == 2 + |column| && TabText(column)[0] == PERCENT
    ensures TabAt(segment + TabText(column) + more, |segment|, |segment| + 2 + |column|)
  {
    hide IsColumn;
    var w := segment + TabText(column) + more;
    var t := w[|segment|..|segment| + 2 + |column|];
    assert t == TabText(column);
    assert t[1..|t| - 1] == column;
    ColumnNotEmpty(column);
  }

  lemma ColumnNotEmpty(column: Text)
    requires IsColumn(column)
    ensures column != []
  {
  }

  lemma NoneEarlier(segment: Text, tail: Text, k: nat, x: nat)
    requires NoTab(segment) && tail != [] && tail[0] == PERCENT && k < |segment|
    ensures !RealTab(segment + tail, k, x)
  {
    hide IsTab, IsColumn;
    var w := segment + tail;
    assert w[|segment|] == PERCENT;
    if x <= |segment| {
      RealInPrefix(segment, tail, k, x);
    } else if TabAt(w, k, x) {
      TabBytes(w, k, x);
    }
  }

  // ----- percent signs in a row -----

  function Percents(k: nat): Text {
    seq(k, _ => PERCENT)
  }

  lemma {:induction false} PercentsCounted(k: nat, y: Text, s: nat)
    requires s <= k
    ensures PercentsBefore(Percents(k) + y, s) == s
    decreases s
  {
    if s > 0 {
      PercentsCounted(k, y, s - 1);
    }
  }

  // After k - 1 percent signs there is a tab format if and only if k is odd.
  lemma PercentRun(k: nat, column: Text)
    requires IsColumn(column)
    ensures Parse(Percents(k) + column + [TEE]) ==
      if k % 2 == 1 then Tab(Percents(k - 1), column, End([])) else End(Percents(k) + column + [TEE])
  {
    var w := Percents(k) + column + [TEE];
    if k % 2 == 1 {
      OddPercents(k, column);
      ParseShow(Tab(Percents(k - 1), column, End([])));
    } else {
      forall s: nat, e: nat
        ensures !RealTab(w, s, e)
      {
        if TabAt(w, s, e) {
          OnlyTab(k, column, s, e);
          assert w == Percents(k) + (column + [TEE]);
          PercentsCounted(k, column + [TEE], s);
        }
      }
      ParseEnd(w);
    }
  }

  lemma OddPercents(k: nat, column: Text)
    requires IsColumn(column) && k % 2 == 1
    ensures
      var l := Tab(Percents(k - 1), column, End([]));
      Good(l) && Show(l) == Percents(k) + column + [TEE]
  {
    var l := Tab(Percents(k - 1), column, End([]));
    PercentsCounted(k - 1, [], k - 1);
    assert Percents(k - 1) + [] == Percents(k - 1);
    forall s: nat, e: nat
      ensures !RealTab(Percents(k - 1), s, e) && !RealTab([], s, e)
    {
      if TabAt(Percents(k - 1), s, e) {
        TabBytes(Percents(k - 1), s, e);
      }
      if TabAt([], s, e) {
        TabBytes([], s, e);
      }
    }
    assert Show(End([])) == [];
    assert Percents(k - 1) + TabText(column) + [] == Percents(k) + column + [TEE];
  }

  // A tab format in such a text begins at the last percent sign.
  lemma OnlyTab(k: nat, column: Text, s: nat, e: nat)
    requires IsColumn(column) && TabAt(Percents(k) + column + [TEE], s, e)
    ensures s + 1 == k
  {
    hide TabAt, IsColumn;
    var w := Percents(k) + column + [TEE];
    TabBytes(w, s, e);
    RunBytes(k, column);
    assert w[s + 1] != PERCENT;
  }

  lemma RunBytes(k: nat, column: Text)
    requires IsColumn(column)
    ensures
      var w := Percents(k) + column + [TEE];
      && (forall i | 0 <= i < |w| :: w[i] == PERCENT <==> i < k)
      && (forall i | 0 <= i < |w| :: w[i] == TEE <==> i == |w| - 1)
  {
    ColumnBytes(column);
  }

  lemma ColumnBytes(column: Text)
    requires IsColumn(column)
    ensures column != [] && forall i | 0 <= i < |column| :: column[i] != PERCENT && column[i] != TEE
  {
    forall i | 0 <= i < |column|
      ensures column[i] != PERCENT && column[i] != TEE
    {
      assert column[i] in column;
    }
  }
}
