/**
 Extended regular expressions as trees, the pattern text of a tree, and the set of
 words it denotes (section 9.4 of IEEE Std 1003.1, Base Definitions).
 */
module RegexSyntax {
  import opened Numerals
  import opened RegexBytes

  type Text = seq<byte>
  type Lang = iset<Text>

  datatype Regex =
    | Last(branch: Branch)
    | Or(branch: Branch, rest: Regex)

  datatype Branch =
    | Empty
    | Then(first: Piece, rest: Branch)

  datatype Piece =
    | Single(atom: Atom)
    | Rep(atom: Atom, ops: seq<RepOp>)
    | Bounded(atom: Atom, posts: seq<Post>)

  datatype RepOp = Star | Plus | Opt

  // Between intervals there may be repetition characters.
  datatype Post = Again(ops: seq<RepOp>) | Times(bounds: Bounds)

  datatype Bounds = Exactly(n: nat) | AtLeast(n: nat) | FromTo(n: nat, m: nat)

  datatype Atom =
    | Chr(c: byte)
    | Dot
    | Set(br: Bracket)
    | Group(r: Regex)

  // [^]...-]: `closeFirst` is a leading `]`, `hyphenLast` a trailing `-`.
  datatype Bracket = Bracket(negated: bool, closeFirst: bool, items: seq<Item>, hyphenLast: bool)

  datatype Item = One(c: byte) | Range(lo: byte, hi: byte)

  // ----- intervals -----

  const RE_DUP_MAX := 32767

  function Lower(b: Bounds): nat {
    b.n
  }

  function Upper(b: Bounds): nat {
    match b
    case Exactly(n) => n
    case AtLeast(_) => RE_DUP_MAX
    case FromTo(_, m) => m
  }

  predicate InOrder(b: Bounds) {
    Lower(b) <= Upper(b) <= RE_DUP_MAX
  }

  // ----- well-formed trees: those whose text reads back as the tree -----

  // A character a bracket expression never reads specially.
  predicate PlainInBracket(c: byte) {
    Listable(c) && c != '-' as int && c != '[' as int
  }

  // Neither the null that would end the pattern, nor the end of the bracket expression.
  predicate Listable(c: byte) {
    c != 0 && c != ']' as int
  }

  predicate WellFormedItem(it: Item) {
    match it
    case One(c) => Listable(c)
    case Range(lo, hi) => Listable(lo) && hi != ']' as int && lo <= hi
  }

  function ItemStart(it: Item): byte {
    match it
    case One(c) => c
    case Range(lo, _) => lo
  }

  // A hyphen after an item would make a range, and `[:' would begin a character class.
  predicate WellFormedItems(items: seq<Item>) {
    && (forall k | 0 <= k < |items| :: WellFormedItem(items[k]))
    && (forall k | 0 < k < |items| :: ItemStart(items[k]) != '-' as int)
    && (forall k | 0 < k < |items| :: items[k - 1] == One('[' as int) ==> ItemStart(items[k]) != ':' as int)
  }

  predicate WellFormedBracket(br: Bracket) {
    && (br.closeFirst || br.items != [] || br.hyphenLast)
    && WellFormedStart(br)
  }

  // The items, and what they begin with.
  predicate WellFormedStart(br: Bracket) {
    && WellFormedItems(br.items)
    && (br.closeFirst && br.items != [] ==> ItemStart(br.items[0]) != '-' as int)
    && (!br.negated && !br.closeFirst && br.items != [] ==> ItemStart(br.items[0]) != '^' as int)
  }

  predicate WellFormedAtom(a: Atom, intervals: bool := false) {
    match a
    case Chr(c) => c != 0
    case Dot => true
    case Set(br) => WellFormedBracket(br)
    case Group(r) => WellFormed(r, intervals)
  }

  predicate WellFormedPosts(posts: seq<Post>) {
    posts != [] ==>
      && (match posts[0]
          case Again(ops) => ops != [] && (|posts| > 1 ==> posts[1].Times?)
          case Times(bounds) => InOrder(bounds))
      && WellFormedPosts(posts[1..])
  }

  predicate WellFormedPiece(p: Piece, intervals: bool := false) {
    match p
    case Single(a) => WellFormedAtom(a, intervals)
    case Rep(a, ops) => WellFormedAtom(a, intervals) && ops != []
    case Bounded(a, posts) => intervals && WellFormedAtom(a, intervals) && posts != [] && WellFormedPosts(posts)
  }

  predicate WellFormedBranch(b: Branch, intervals: bool := false) {
    b.Then? ==> WellFormedPiece(b.first, intervals) && WellFormedBranch(b.rest, intervals)
  }

  // Trees with intervals only where they are asked for: the compiler's part.
  predicate WellFormed(r: Regex, intervals: bool := false) {
    WellFormedBranch(r.branch, intervals) && (r.Or? ==> WellFormed(r.rest, intervals))
  }

  // ----- pattern text -----

  const SPECIALS: set<byte> := {'^' as int, '$' as int, '.' as int, '[' as int, '*' as int, '+' as int,
                                '?' as int, '(' as int, ')' as int, '|' as int, '{' as int, '\\' as int}

  function OpText(op: RepOp): byte {
    match op
    case Star => '*' as int
    case Plus => '+' as int
    case Opt => '?' as int
  }

  function OpsText(ops: seq<RepOp>): Text {
    if ops == [] then [] else [OpText(ops[0])] + OpsText(ops[1..])
  }

  // What follows the brace.
  function BoundsText(b: Bounds): Text {
    match b
    case Exactly(n) => Decimal(n) + ['}' as int]
    case AtLeast(n) => Decimal(n) + [',' as int] + [] + ['}' as int]
    case FromTo(n, m) => Decimal(n) + [',' as int] + Decimal(m) + ['}' as int]
  }

  function PostText(post: Post): Text {
    match post
    case Again(ops) => OpsText(ops)
    case Times(bounds) => ['{' as int] + BoundsText(bounds)
  }

  function PostsText(posts: seq<Post>): Text {
    if posts == [] then [] else PostText(posts[0]) + PostsText(posts[1..])
  }

  function ItemText(it: Item): Text {
    match it
    case One(c) => [c]
    case Range(lo, hi) => [lo, '-' as int, hi]
  }

  function ItemsText(items: seq<Item>): Text {
    if items == [] then [] else ItemText(items[0]) + ItemsText(items[1..])
  }

  // A bracket expression up to the end of its items.
  function StartText(br: Bracket): Text {
    ['[' as int]
    + (if br.negated then ['^' as int] else [])
    + (if br.closeFirst then [']' as int] else [])
    + ItemsText(br.items)
  }

  function BracketText(br: Bracket): Text {
    StartText(br)
    + (if br.hyphenLast then ['-' as int] else [])
    + [']' as int]
  }

  function AtomText(a: Atom): Text {
    match a
    case Chr(c) => if c in SPECIALS then ['\\' as int, c] else [c]
    case Dot => ['.' as int]
    case Set(br) => BracketText(br)
    case Group(r) => ['(' as int] + RegexText(r) + [')' as int]
  }

  function PieceText(p: Piece): Text {
    match p
    case Single(a) => AtomText(a)
    case Rep(a, ops) => AtomText(a) + OpsText(ops)
    case Bounded(a, posts) => AtomText(a) + PostsText(posts)
  }

  function BranchText(b: Branch): Text {
    match b
    case Empty => []
    case Then(p, rest) => PieceText(p) + BranchText(rest)
  }

  function RegexText(r: Regex): Text {
    match r
    case Last(b) => BranchText(b)
    case Or(b, rest) => BranchText(b) + ['|' as int] + RegexText(rest)
  }

  // ----- languages -----

  ghost predicate InCat(A: Lang, B: Lang, w: Text) {
    exists k: nat :: k <= |w| && w[..k] in A && w[k..] in B
  }

  ghost function Cat(A: Lang, B: Lang): Lang {
    iset w: Text | InCat(A, B, w)
  }

  ghost function Power(A: Lang, n: nat): Lang {
    if n == 0 then iset{[]} else Cat(A, Power(A, n - 1))
  }

  ghost predicate InStar(A: Lang, w: Text) {
    exists n: nat :: w in Power(A, n)
  }

  ghost function StarOf(A: Lang): Lang {
    iset w: Text | InStar(A, w)
  }

  ghost function PlusOf(A: Lang): Lang {
    Cat(A, StarOf(A))
  }

  ghost function OptOf(A: Lang): Lang {
    A + iset{[]}
  }

  ghost function ApplyOp(A: Lang, op: RepOp): Lang {
    match op
    case Star => StarOf(A)
    case Plus => PlusOf(A)
    case Opt => OptOf(A)
  }

  // A run of repetition characters: each one repeats everything before it.
  ghost function ApplyOps(A: Lang, ops: seq<RepOp>): Lang {
    if ops == [] then A else ApplyOp(ApplyOps(A, ops[..|ops| - 1]), ops[|ops| - 1])
  }

  ghost predicate InTimes(A: Lang, b: Bounds, w: Text) {
    exists n: nat :: Lower(b) <= n <= Upper(b) && w in Power(A, n)
  }

  ghost function ApplyPosts(A: Lang, posts: seq<Post>): Lang {
    if posts == [] then A
    else
      var B := match posts[0]
               case Again(ops) => ApplyOps(A, ops)
               case Times(b) => iset w: Text | InTimes(A, b, w);
      ApplyPosts(B, posts[1..])
  }

  predicate ItemHas(it: Item, c: byte) {
    match it
    case One(d) => c == d
    case Range(lo, hi) => lo <= c <= hi
  }

  predicate ItemsHave(items: seq<Item>, c: byte) {
    exists it | it in items :: ItemHas(it, c)
  }

  predicate BracketHas(br: Bracket, c: byte) {
    br.negated != (
      || (br.closeFirst && c == ']' as int)
      || ItemsHave(br.items, c)
      || (br.hyphenLast && c == '-' as int))
  }

  ghost function AtomLang(a: Atom): Lang {
    match a
    case Chr(c) => iset{[c]}
    case Dot => iset w: Text | |w| == 1 && w[0] != 0
    case Set(br) => iset w: Text | |w| == 1 && BracketHas(br, w[0])
    case Group(r) => RegexLang(r)
  }

  ghost function PieceLang(p: Piece): Lang {
    match p
    case Single(a) => AtomLang(a)
    case Rep(a, ops) => ApplyOps(AtomLang(a), ops)
    case Bounded(a, posts) => ApplyPosts(AtomLang(a), posts)
  }

  ghost function BranchLang(b: Branch): Lang {
    match b
    case Empty => iset{[]}
    case Then(p, rest) => Cat(PieceLang(p), BranchLang(rest))
  }

  ghost function RegexLang(r: Regex): Lang {
    match r
    case Last(b) => BranchLang(b)
    case Or(b, rest) => BranchLang(b) + RegexLang(rest)
  }

  // ----- a run of repetition characters collapses to one (lines 1944-1998) -----

  predicate ZeroOk(ops: seq<RepOp>) {
    exists k | 0 <= k < |ops| :: ops[k] != Plus
  }

  predicate ManyOk(ops: seq<RepOp>) {
    exists k | 0 <= k < |ops| :: ops[k] != Opt
  }

  ghost function Collapsed(A: Lang, zeroOk: bool, manyOk: bool): Lang {
    if manyOk then (if zeroOk then StarOf(A) else PlusOf(A))
    else if zeroOk then OptOf(A) else A
  }

  lemma CatIntro(A: Lang, B: Lang, u: Text, v: Text)
    requires u in A && v in B
    ensures u + v in Cat(A, B)
  {
    var w := u + v;
    assert w[..|u|] == u && w[|u|..] == v;
  }

  lemma CatElim(A: Lang, B: Lang, w: Text) returns (u: Text, v: Text)
    requires w in Cat(A, B)
    ensures w == u + v && u in A && v in B
  {
    var k: nat :| k <= |w| && w[..k] in A && w[k..] in B;
    u, v := w[..k], w[k..];
  }

  lemma {:induction false} PowerAdd(A: Lang, m: nat, n: nat, u: Text, v: Text)
    requires u in Power(A, m) && v in Power(A, n)
    ensures u + v in Power(A, m + n)
  {
    hide *;
    PowerIs(A, m);
    PowerIs(A, m + n);
    if m == 0 {
      assert u == [];
      Joined([], v, []);
    } else {
      var a, b := CatElim(A, Power(A, m - 1), u);
      PowerAdd(A, m - 1, n, b, v);
      CatIntro(A, Power(A, m - 1 + n), a, b + v);
      Joined(a, b, v);
    }
  }

  lemma PowerIs(A: Lang, n: nat)
    ensures Power(A, n) == if n == 0 then iset{[]} else Cat(A, Power(A, n - 1))
  {
  }

  lemma Joined(u: Text, v: Text, w: Text)
    ensures u + (v + w) == (u + v) + w
    ensures [] + v == v
  {
  }

  lemma PowerOne(A: Lang, w: Text)
    requires w in A
    ensures w in Power(A, 1)
  {
    CatIntro(A, Power(A, 0), w, []);
    assert w + [] == w;
  }

  lemma StarAdd(A: Lang, u: Text, v: Text)
    requires u in StarOf(A) && v in StarOf(A)
    ensures u + v in StarOf(A)
  {
    var m: nat :| u in Power(A, m);
    var n: nat :| v in Power(A, n);
    PowerAdd(A, m, n, u, v);
  }

  lemma StarEmpty(A: Lang)
    ensures [] in StarOf(A)
  {
    assert [] in Power(A, 0);
  }

  lemma StarOne(A: Lang, w: Text)
    requires w in A
    ensures w in StarOf(A) && w in PlusOf(A)
  {
    PowerOne(A, w);
    StarEmpty(A);
    CatIntro(A, StarOf(A), w, []);
    assert w + [] == w;
  }

  lemma PlusToStar(A: Lang, w: Text)
    requires w in PlusOf(A)
    ensures w in StarOf(A)
  {
    var u, v := CatElim(A, StarOf(A), w);
    StarOne(A, u);
    StarAdd(A, u, v);
  }

  lemma StarToPlus(A: Lang, w: Text)
    requires w in StarOf(A) && w != []
    ensures w in PlusOf(A)
  {
    var n: nat :| w in Power(A, n);
    var u, v := CatElim(A, Power(A, n - 1), w);
    CatIntro(A, StarOf(A), u, v);
  }

  // Repeating words of A* gives words of A* only.
  lemma {:induction false} StarFlattens(A: Lang, B: Lang, n: nat, w: Text)
    requires B <= StarOf(A) && w in Power(B, n)
    ensures w in StarOf(A)
  {
    if n == 0 {
      StarEmpty(A);
    } else {
      var u, v := CatElim(B, Power(B, n - 1), w);
      StarFlattens(A, B, n - 1, v);
      StarAdd(A, u, v);
    }
  }

  lemma {:induction false} PowerGrows(A: Lang, B: Lang, n: nat, w: Text)
    requires A <= B && w in Power(A, n)
    ensures w in Power(B, n)
  {
    if n > 0 {
      var u, v := CatElim(A, Power(A, n - 1), w);
      PowerGrows(A, B, n - 1, v);
      CatIntro(B, Power(B, n - 1), u, v);
    }
  }

  // Any language between A and A* has the same closure as A.
  lemma StarBetween(A: Lang, B: Lang)
    requires A <= B <= StarOf(A)
    ensures StarOf(B) == StarOf(A)
  {
    forall w | w in StarOf(B)
      ensures w in StarOf(A)
    {
      var n: nat :| w in Power(B, n);
      StarFlattens(A, B, n, w);
    }
    forall w | w in StarOf(A)
      ensures w in StarOf(B)
    {
      var n: nat :| w in Power(A, n);
      PowerGrows(A, B, n, w);
    }
  }

  lemma PlusWithEmpty(A: Lang)
    requires [] in A
    ensures PlusOf(A) == StarOf(A)
  {
    forall w
      ensures w in PlusOf(A) <==> w in StarOf(A)
    {
      if w in PlusOf(A) {
        PlusToStar(A, w);
      } else if w in StarOf(A) && w != [] {
        StarToPlus(A, w);
      } else if w == [] {
        StarOne(A, []);
      }
    }
  }

  lemma PlusOfPlus(A: Lang)
    ensures PlusOf(PlusOf(A)) == PlusOf(A)
  {
    hide InCat, InStar;
    forall w
      ensures w in PlusOf(PlusOf(A)) <==> w in PlusOf(A)
    {
      if w in PlusOf(A) {
        StarOne(PlusOf(A), w);
      }
      if w in PlusOf(PlusOf(A)) {
        var u, v := CatElim(PlusOf(A), StarOf(PlusOf(A)), w);
        StarOfPlus(A);
        var a, b := CatElim(A, StarOf(A), u);
        StarAdd(A, b, v);
        assert w == a + (b + v);
        CatIntro(A, StarOf(A), a, b + v);
      }
    }
  }

  lemma StarOfStar(A: Lang)
    ensures StarOf(StarOf(A)) == StarOf(A)
    ensures OptOf(StarOf(A)) == StarOf(A)
    ensures PlusOf(StarOf(A)) == StarOf(A)
  {
    hide InCat, InStar;
    StarEmpty(A);
    forall w | w in A
      ensures w in StarOf(A)
    {
      StarOne(A, w);
    }
    StarBetween(A, StarOf(A));
    PlusWithEmpty(StarOf(A));
  }

  lemma StarOfPlus(A: Lang)
    ensures StarOf(PlusOf(A)) == StarOf(A)
  {
    forall w
      ensures w in A ==> w in PlusOf(A)
      ensures w in PlusOf(A) ==> w in StarOf(A)
    {
      if w in A {
        StarOne(A, w);
      }
      if w in PlusOf(A) {
        PlusToStar(A, w);
      }
    }
    StarBetween(A, PlusOf(A));
  }

  lemma OptOfPlus(A: Lang)
    ensures OptOf(PlusOf(A)) == StarOf(A)
  {
    StarEmpty(A);
    forall w
      ensures w in OptOf(PlusOf(A)) <==> w in StarOf(A)
    {
      if w in PlusOf(A) {
        PlusToStar(A, w);
      } else if w in StarOf(A) && w != [] {
        StarToPlus(A, w);
      }
    }
  }

  lemma StarOfOpt(A: Lang)
    ensures StarOf(OptOf(A)) == StarOf(A)
    ensures PlusOf(OptOf(A)) == StarOf(A)
    ensures OptOf(OptOf(A)) == OptOf(A)
  {
    hide InCat, InStar;
    StarEmpty(A);
    forall w | w in A
      ensures w in StarOf(A)
    {
      StarOne(A, w);
    }
    StarBetween(A, OptOf(A));
    PlusWithEmpty(OptOf(A));
  }

  // One more repetition character on an already collapsed run.
  lemma CollapseStep(A: Lang, zeroOk: bool, manyOk: bool, op: RepOp)
    ensures ApplyOp(Collapsed(A, zeroOk, manyOk), op)
         == Collapsed(A, zeroOk || op != Plus, manyOk || op != Opt)
  {
    hide InCat, InStar;
    if zeroOk && manyOk {
      StarOfStar(A);
    } else if manyOk {
      match op {
        case Star => StarOfPlus(A);
        case Plus => PlusOfPlus(A);
        case Opt => OptOfPlus(A);
      }
    } else if zeroOk {
      StarOfOpt(A);
    }
  }

  // Repeating repeatedly means what the collapsed operator means.
  lemma {:induction false} OpsCollapse(A: Lang, ops: seq<RepOp>)
    ensures ApplyOps(A, ops) == Collapsed(A, ZeroOk(ops), ManyOk(ops))
  {
    if ops != [] {
      var n := |ops| - 1;
      var init := ops[..n];
      OpsCollapse(A, init);
      assert ZeroOk(ops) <==> ZeroOk(init) || ops[n] != Plus by {
        if ZeroOk(init) {
          var k :| 0 <= k < n && init[k] != Plus;
          assert ops[k] != Plus;
        }
      }
      assert ManyOk(ops) <==> ManyOk(init) || ops[n] != Opt by {
        if ManyOk(init) {
          var k :| 0 <= k < n && init[k] != Opt;
          assert ops[k] != Opt;
        }
      }
      CollapseStep(A, ZeroOk(init), ManyOk(init), ops[n]);
    }
  }
}
