/**
 Reading the text of a tree, the one-pass compiler ends up with exactly the code that the
 tree calls for.
 */
module RegexCompileProof {
  import opened Wrappers
  import opened RegexBytes
  import opened RegexSyntax
  import opened RegexGen
  import opened RegexCompileSpec
  import opened RegexBounds

  lemma NoRun(a: Code)
    ensures a + Flush([]) == a
  {
  }

  lemma Assoc(a: Code, b: Code, c: Code)
    ensures a + b + c == a + (b + c)
  {
  }

  // ----- bracket expressions -----

  // What may follow the items: no hyphen but a final one, and nothing that begins a class.
  predicate Follows(pat: Text, e: nat, items: seq<Item>) {
    && (Peek(pat, e) == '-' as int ==> Peek(pat, e + 1) == ']' as int)
    && (items != [] && items[|items| - 1] == One('[' as int) ==> Peek(pat, e) != ':' as int)
  }

  // Just after `[' or `[^'.
  predicate AfterOpening(pat: Text, p: nat) {
    1 <= p <= |pat| && (pat[p - 1] == '[' as int || (p >= 2 && pat[p - 2] == '[' as int && pat[p - 1] == '^' as int))
  }

  lemma {:induction false} ReadItems(items: seq<Item>, pat: Text, p: nat, first: nat, map8: seq<byte>)
    requires WellFormedItems(items) && Sub(pat, p, ItemsText(items)) && 1 <= first <= p && |map8| == 32
    requires items != [] && ItemStart(items[0]) == '-' as int ==> AfterOpening(pat, p)
    requires items != [] ==> Follows(pat, p + |ItemsText(items)|, items)
    ensures BracketLoop(pat, p, first, map8)
         == BracketLoop(pat, p + |ItemsText(items)|, first, SetItems(map8, items))
    decreases |items|
  {
    hide BracketLoop, SetItem, Sub, Follows, AfterOpening, ItemText, ItemStart, MapHas, WellFormedItem, Peek;
    if items != [] {
      var it, rest := items[0], items[1..];
      var e := p + |ItemText(it)|;
      assert items == [it] + rest;
      SubParts(pat, p, ItemText(it), ItemsText(rest));
      NextFollows(it, rest, pat, e);
      ReadItem(it, pat, p, first, map8);
      ReadItems(rest, pat, e, first, SetItem(map8, it));
    }
  }

  lemma NextFollows(it: Item, rest: seq<Item>, pat: Text, e: nat)
    requires WellFormedItems([it] + rest) && Sub(pat, e, ItemsText(rest))
    requires Follows(pat, e + |ItemsText(rest)|, [it] + rest)
    ensures Follows(pat, e, [it]) && Follows(pat, e + |ItemsText(rest)|, rest) && WellFormedItems(rest)
    ensures rest != [] ==> ItemStart(rest[0]) != '-' as int
  {
    hide ItemStart, Sub, WellFormedItems, Peek, ItemsText;
    WellFormedRest(it, rest);
    ItemsNonempty(rest);
    if rest != [] {
      assert ([it] + rest)[|rest|] == rest[|rest| - 1];
      SubFirst(pat, e, ItemsText(rest));
    } else {
      assert [it] + rest == [it];
    }
  }

  lemma WellFormedRest(it: Item, rest: seq<Item>)
    requires WellFormedItems([it] + rest)
    ensures WellFormedItem(it) && WellFormedItems(rest)
    ensures rest != [] ==> ItemStart(rest[0]) != '-' as int && (it == One('[' as int) ==> ItemStart(rest[0]) != ':' as int)
  {
    hide ItemStart, WellFormedItem;
    var all := [it] + rest;
    assert all[0] == it;
    assert forall k | 0 <= k < |rest| :: rest[k] == all[k + 1];
    if rest != [] {
      assert all[1] == rest[0];
    }
  }

  lemma ReadItem(it: Item, pat: Text, p: nat, first: nat, map8: seq<byte>)
    requires WellFormedItem(it) && Sub(pat, p, ItemText(it)) && 1 <= first <= p && |map8| == 32
    requires ItemStart(it) == '-' as int ==> AfterOpening(pat, p)
    requires Follows(pat, p + |ItemText(it)|, [it])
    ensures BracketLoop(pat, p, first, map8)
         == BracketLoop(pat, p + |ItemText(it)|, first, SetItem(map8, it))
  {
    hide BracketLoop, SetRange, SetListBit, AfterOpening;
    var w := pat[p..p + |ItemText(it)|];
    assert w == ItemText(it) && w[0] == pat[p];
    match it
    case One(c) => ReadOne(c, pat, p, first, map8);
    case Range(lo, hi) =>
      assert w[1] == pat[p + 1] == '-' as int && w[2] == pat[p + 2] == hi;
      ReadRange(lo, hi, pat, p, first, map8);
  }

  lemma ReadOne(c: byte, pat: Text, p: nat, first: nat, map8: seq<byte>)
    requires 1 <= first <= p < |pat| && pat[p] == c && |map8| == 32
    requires (c == ']' as int ==> p == first) && (c == '[' as int ==> Peek(pat, p + 1) != ':' as int)
    requires c == '-' as int ==> Peek(pat, p + 1) == ']' as int || AfterOpening(pat, p)
    requires Peek(pat, p + 1) == '-' as int ==> Peek(pat, p + 2) == ']' as int
    ensures BracketLoop(pat, p, first, map8) == BracketLoop(pat, p + 1, first, SetListBit(map8, c))
  {
    hide SetListBit;
  }

  // A range up to its last character.
  lemma TryRange(pat: Text, p: nat, first: nat, map8: seq<byte>)
    requires 1 <= first <= p && p + 1 < |pat| && |map8| == 32
    requires pat[p] != ']' as int && pat[p + 1] == '-' as int && Peek(pat, p + 2) != ']' as int
    requires pat[p] == '-' as int ==> AfterOpening(pat, p)
    ensures
      var m := CompileRange(pat, p + 2, map8);
      BracketLoop(pat, p, first, map8) == if m.Err? then Err(m.error) else BracketLoop(pat, p + 3, first, m.value)
  {
    hide SetListBit, CompileRange;
  }

  lemma ReadRange(lo: byte, hi: byte, pat: Text, p: nat, first: nat, map8: seq<byte>)
    requires 1 <= first <= p && p + 2 < |pat| && |map8| == 32
    requires pat[p] == lo && pat[p + 1] == '-' as int && pat[p + 2] == hi
    requires Listable(lo) && hi != ']' as int && lo <= hi
    requires lo == '-' as int ==> AfterOpening(pat, p)
    ensures BracketLoop(pat, p, first, map8) == BracketLoop(pat, p + 3, first, SetRange(map8, lo, hi))
  {
    hide BracketLoop, SetRange, AfterOpening;
    TryRange(pat, p, first, map8);
  }

  lemma ReadTail(hyphen: bool, pat: Text, p: nat, first: nat, map8: seq<byte>)
    requires 1 <= first <= p && |map8| == 32 && (p > first || hyphen)
    requires Peek(pat, p) == if hyphen then '-' as int else ']' as int
    requires hyphen ==> Peek(pat, p + 1) == ']' as int
    ensures BracketLoop(pat, p, first, map8)
         == Ok(if hyphen then (p + 2, SetListBit(map8, '-' as int)) else (p + 1, map8))
  {
    hide SetListBit;
    if hyphen {
      ReadOne('-' as int, pat, p, first, map8);
    }
  }

  // Where the items begin.
  function FirstPlace(br: Bracket, p: nat): (r: nat)
    ensures r > p
  {
    p + if br.negated then 2 else 1
  }

  function StartMap(br: Bracket): (m: seq<byte>)
    ensures |m| == 32
  {
    SetItems(if br.closeFirst then SetListBit(ZeroMap(), ']' as int) else ZeroMap(), br.items)
  }

  // A bracket expression is read up to the end of its items, whatever comes then.
  lemma ReadStart(br: Bracket, pat: Text, p: nat)
    requires WellFormedStart(br) && Sub(pat, p, StartText(br))
    requires br.closeFirst || br.items != [] ==> Follows(pat, p + |StartText(br)|, br.items)
    requires br.negated || br.closeFirst || br.items != []
    ensures
      var first := FirstPlace(br, p);
      && p + 1 < |pat| && (pat[p + 1] == '^' as int <==> br.negated) && first <= p + |StartText(br)|
      && (br.closeFirst || br.items != [] ==> first < p + |StartText(br)|)
      && BracketLoop(pat, first, first, ZeroMap()) == BracketLoop(pat, p + |StartText(br)|, first, StartMap(br))
  {
    hide BracketLoop, SetListBit, SetItems, ItemsText, ZeroMap, Sub, WellFormedItems, MapHas, StartText, Follows, AfterOpening,
      ItemStart;
    var first := FirstPlace(br, p);
    var a := first + if br.closeFirst then 1 else 0;
    StartParts(br, pat, p);
    var m1 := if br.closeFirst then SetListBit(ZeroMap(), ']' as int) else ZeroMap();
    ItemsNonempty(br.items);
    if br.closeFirst {
      ReadClosing(br, pat, a);
      ReadOne(']' as int, pat, first, first, ZeroMap());
    } else {
      Opened(br, pat, p);
    }
    ReadItems(br.items, pat, a, first, m1);
  }

  lemma Opened(br: Bracket, pat: Text, p: nat)
    requires FirstPlace(br, p) <= |pat| && pat[p] == '[' as int && (br.negated ==> pat[p + 1] == '^' as int)
    ensures AfterOpening(pat, FirstPlace(br, p))
  {
  }

  // What comes after a leading `]'.
  lemma ReadClosing(br: Bracket, pat: Text, a: nat)
    requires WellFormedStart(br) && br.closeFirst && Sub(pat, a, ItemsText(br.items))
    requires Follows(pat, a + |ItemsText(br.items)|, br.items)
    ensures Peek(pat, a) == '-' as int ==> Peek(pat, a + 1) == ']' as int
  {
    hide ItemsText, ItemStart, Sub, WellFormedItems;
    ItemsNonempty(br.items);
    if br.items != [] {
      SubFirst(pat, a, ItemsText(br.items));
    }
  }

  lemma StartTextIs(br: Bracket)
    ensures StartText(br) == ['[' as int]
      + (if br.negated then ['^' as int] else [])
      + (if br.closeFirst then [']' as int] else [])
      + ItemsText(br.items)
  {
  }

  // Where the parts of a bracket expression stand.
  lemma StartParts(br: Bracket, pat: Text, p: nat)
    requires WellFormedStart(br) && Sub(pat, p, StartText(br))
    requires br.negated || br.closeFirst || br.items != []
    ensures
      var first := FirstPlace(br, p);
      var a := first + if br.closeFirst then 1 else 0;
      && p + 1 < |pat| && pat[p] == '[' as int && (pat[p + 1] == '^' as int <==> br.negated) && first <= |pat|
      && (br.closeFirst ==> first < |pat| && pat[first] == ']' as int)
      && Sub(pat, a, ItemsText(br.items)) && p + |StartText(br)| == a + |ItemsText(br.items)|
  {
    hide *;
    FirstIs(br, p);
    if !br.negated && !br.closeFirst && br.items != [] {
      NoCaret(br);
    }
    var neg: Text := if br.negated then ['^' as int] else [];
    var cls: Text := if br.closeFirst then [']' as int] else [];
    var open: Text := ['[' as int];
    var its := ItemsText(br.items);
    StartTextIs(br);
    SubParts(pat, p, open + neg + cls, its);
    SubParts(pat, p, open + neg, cls);
    SubParts(pat, p, open, neg);
    SubFirst(pat, p, open);
    ItemsNonempty(br.items);
    if br.negated {
      SubFirst(pat, p + 1, neg);
    }
    if br.closeFirst {
      SubFirst(pat, p + 1 + |neg|, cls);
    } else if br.items != [] {
      SubFirst(pat, p + 1 + |neg|, its);
    }
    SubEnd(pat, p + 1 + |neg|, cls);
  }

  lemma FirstIs(br: Bracket, p: nat)
    ensures FirstPlace(br, p) == p + if br.negated then 2 else 1
  {
  }

  lemma SubEnd(pat: Text, p: nat, w: Text)
    requires Sub(pat, p, w)
    ensures p + |w| <= |pat|
  {
  }

  lemma NoCaret(br: Bracket)
    requires WellFormedStart(br) && !br.negated && !br.closeFirst && br.items != []
    ensures ItemStart(br.items[0]) != '^' as int
  {
  }

  lemma ItemsNonempty(items: seq<Item>)
    ensures items == [] ==> ItemsText(items) == []
    ensures items != [] ==> ItemsText(items) != [] && ItemsText(items)[0] == ItemStart(items[0])
  {
  }

  lemma BracketTextIs(br: Bracket)
    ensures BracketText(br) == StartText(br) + (if br.hyphenLast then ['-' as int] else []) + [']' as int]
  {
  }

  lemma ReadBracketText(br: Bracket, pat: Text, p: nat, st: CState)
    requires WellFormedBracket(br) && Sub(pat, p, BracketText(br)) && Good(st)
    ensures ReadBracket(pat, p + 1, st)
         == Ok((p + |BracketText(br)|, st.(code := st.code + BracketCode(br), laststart := Some(|st.code|))))
  {
    hide *;
    var hyp: Text := if br.hyphenLast then ['-' as int] else [];
    var first, b := FirstPlace(br, p), p + |StartText(br)|;
    BracketStart(br);
    BracketTextIs(br);
    SubParts(pat, p, StartText(br) + hyp, [']' as int]);
    SubParts(pat, p, StartText(br), hyp);
    SubFirst(pat, b + |hyp|, [']' as int]);
    if br.hyphenLast {
      SubFirst(pat, b, hyp);
    }
    EndFollows(br, pat, b);
    if !br.negated && !br.closeFirst && br.items == [] {
      OnlyHyphen(br, p);
    } else {
      ReadStart(br, pat, p);
    }
    ReadTail(br.hyphenLast, pat, b, first, StartMap(br));
    MapOfStart(br);
    BracketEnds(br, pat, p, st, p + |BracketText(br)|);
  }

  lemma BracketStart(br: Bracket)
    requires WellFormedBracket(br)
    ensures WellFormedStart(br) && (br.closeFirst || br.items != [] || br.hyphenLast)
  {
    hide WellFormedStart;
  }

  // The bitmap, once it is read, and what is made of it.
  lemma BracketEnds(br: Bracket, pat: Text, p: nat, st: CState, e: nat)
    requires Good(st) && p + 1 < |pat| && (pat[p + 1] == '^' as int <==> br.negated)
    requires BracketLoop(pat, FirstPlace(br, p), FirstPlace(br, p), ZeroMap()) == Ok((e, BracketMap(br)))
    ensures ReadBracket(pat, p + 1, st)
         == Ok((e, st.(code := st.code + BracketCode(br), laststart := Some(|st.code|))))
  {
    hide BracketLoop, ZeroMap, BracketMap, Trim, Good;
  }

  lemma MapOfStart(br: Bracket)
    ensures BracketMap(br) == if br.hyphenLast then SetListBit(StartMap(br), '-' as int) else StartMap(br)
  {
  }

  lemma EndFollows(br: Bracket, pat: Text, b: nat)
    requires Peek(pat, b) == if br.hyphenLast then '-' as int else ']' as int
    requires br.hyphenLast ==> Peek(pat, b + 1) == ']' as int
    ensures Follows(pat, b, br.items)
  {
  }

  lemma OnlyHyphen(br: Bracket, p: nat)
    requires !br.negated && !br.closeFirst && br.items == []
    ensures StartText(br) == ['[' as int] && StartMap(br) == ZeroMap() && FirstPlace(br, p) == p + 1
  {
  }

  // ----- characters that end a run of literals, and those that do not -----

  predicate PlainNext(c: byte) {
    !IsRepChar(c) && c != '^' as int && c != '{' as int
  }

  lemma AtomStart(a: Atom)
    requires WellFormedAtom(a, true)
    ensures AtomText(a) != [] && PlainNext(AtomText(a)[0])
  {
  }

  lemma BranchStart(b: Branch, pat: Text, p: nat)
    requires WellFormedBranch(b, true) && Sub(pat, p, BranchText(b)) && PlainNext(Peek(pat, p + |BranchText(b)|))
    ensures PlainNext(Peek(pat, p))
  {
    if b.Then? {
      AtomStart(b.first.atom);
      assert PieceText(b.first)[0] == AtomText(b.first.atom)[0];
      SubFirst(pat, p, BranchText(b));
    }
  }

  // No exactn is open at the end of the code.
  predicate Inert(st: CState)
    requires Good(st)
  {
    st.pending.None? || st.pending.value + 1 + st.code[st.pending.value] < |st.code|
  }

  // What reading part of an expression leaves alone.
  predicate SamePlace(st: CState, st': CState) {
    st'.begalt == st.begalt && st'.fixup == st.fixup && st'.stack == st.stack
  }

  // ----- repetition -----

  lemma {:induction false} RepRunIs(ops: seq<RepOp>, pat: Text, p: nat)
    requires Sub(pat, p, OpsText(ops)) && !IsRepChar(Peek(pat, p + |ops|))
    requires |OpsText(ops)| == |ops|
    ensures RepRun(pat, p) == ops
    decreases |ops|
  {
    if ops != [] {
      OpsTextLength(ops[1..]);
      SubFirst(pat, p, OpsText(ops));
      SubParts(pat, p, [OpText(ops[0])], OpsText(ops[1..]));
      RepRunIs(ops[1..], pat, p + 1);
      assert ops == [ops[0]] + ops[1..];
    }
  }

  lemma OpsTextLength(ops: seq<RepOp>)
    ensures |OpsText(ops)| == |ops|
  {
  }

  lemma RepeatCode(st: CState, base: Code, X: Code, zeroOk: bool, manyOk: bool)
    requires Good(st) && st.code == base + X && st.laststart == Some(|base|)
    ensures Repeat(st, zeroOk, manyOk).code == base + RepCode(X, zeroOk, manyOk)
  {
    hide Good, Op1, InsertOp1;
    var m := if manyOk then Op1(MAYBE_POP_JUMP, -|X| - 6) else [];
    var f := Op1(ON_FAILURE_JUMP, |X| + if manyOk then 3 else 0);
    var k := |X| + if manyOk then 3 else 0;
    var c1 := if manyOk then st.code + m else st.code;
    assert c1 == base + (X + m) && |c1| - |base| == k;
    Insertion(base, X + m, ON_FAILURE_JUMP, k);
    Insertion(base, f + (X + m), DUMMY_FAILURE_JUMP, 3);
    RepCodeIs(base, X, zeroOk, manyOk);
  }

  lemma RepCodeIs(base: Code, X: Code, zeroOk: bool, manyOk: bool)
    ensures
      var m := if manyOk then Op1(MAYBE_POP_JUMP, -|X| - 6) else [];
      var f := Op1(ON_FAILURE_JUMP, |X| + if manyOk then 3 else 0);
      base + RepCode(X, zeroOk, manyOk)
      == if zeroOk then base + (f + (X + m)) else base + (Op1(DUMMY_FAILURE_JUMP, 3) + (f + (X + m)))
  {
    hide Op1;
    var m := if manyOk then Op1(MAYBE_POP_JUMP, -|X| - 6) else [];
    var f := Op1(ON_FAILURE_JUMP, |X| + if manyOk then 3 else 0);
    if zeroOk {
      assert [] + f + X + m == f + (X + m);
    } else {
      var d := Op1(DUMMY_FAILURE_JUMP, 3);
      assert d + f + X + m == d + (f + (X + m));
    }
  }

  lemma Insertion(base: Code, rest: Code, op: byte, arg: int)
    ensures InsertOp1(base + rest, op, |base|, arg) == base + (Op1(op, arg) + rest)
  {
    assert (base + rest)[..|base|] == base && (base + rest)[|base|..] == rest;
  }

  lemma ReadOps(ops: seq<RepOp>, pat: Text, p: nat, st: CState)
    requires Good(st) && st.laststart.Some? && ops != []
    requires Sub(pat, p, OpsText(ops)) && !IsRepChar(Peek(pat, p + |OpsText(ops)|))
    ensures CompileFrom(pat, p, st) == CompileFrom(pat, p + |OpsText(ops)|, Repeat(st, ZeroOk(ops), ManyOk(ops)))
  {
    hide Good, Repeat, Sub;
    OpsTextLength(ops);
    RepRunIs(ops, pat, p);
    SubFirst(pat, p, OpsText(ops));
  }

  // ----- atoms -----

  lemma ReadLiteral(c: byte, pat: Text, p: nat, st: CState)
    requires c != 0 && Good(st) && Sub(pat, p, AtomText(Chr(c)))
    ensures
      var e := p + |AtomText(Chr(c))|;
      CompileFrom(pat, p, st) == CompileFrom(pat, e, Literal(st, c, Peek(pat, e)))
  {
    hide Good, Literal;
    var w := AtomText(Chr(c));
    SubFirst(pat, p, w);
    if c in SPECIALS {
      assert pat[p..p + 2][1] == c == pat[p + 1];
      assert Step(pat, p, st) == Ok((p + 2, Literal(st, c, Peek(pat, p + 2))));
    } else {
      assert Step(pat, p, st) == Ok((p + 1, Literal(st, c, Peek(pat, p + 1))));
    }
  }

  lemma ReadDot(pat: Text, p: nat, st: CState)
    requires Good(st) && p < |pat| && pat[p] == '.' as int
    ensures CompileFrom(pat, p, st) == CompileFrom(pat, p + 1, AnyChar(st))
  {
    hide Good;
    assert Step(pat, p, st) == Ok((p + 1, AnyChar(st)));
  }

  lemma ReadSet(br: Bracket, pat: Text, p: nat, st: CState)
    requires WellFormedBracket(br) && Sub(pat, p, BracketText(br)) && Good(st)
    ensures
      var st' := st.(code := st.code + BracketCode(br), laststart := Some(|st.code|));
      && Good(st') && Inert(st')
      && CompileFrom(pat, p, st) == CompileFrom(pat, p + |BracketText(br)|, st')
  {
    hide ReadBracket, Sub, BracketCode, BracketText, StackFits, Good, WellFormedBracket, Inert;
    SetBegins(br, pat, p);
    ReadBracketText(br, pat, p, st);
    StepSet(pat, p, st);
    SetIsGood(st, BracketCode(br));
  }

  lemma SetBegins(br: Bracket, pat: Text, p: nat)
    requires Sub(pat, p, BracketText(br))
    ensures p < |pat| && pat[p] == '[' as int
  {
    SubFirst(pat, p, BracketText(br));
  }

  lemma StepSet(pat: Text, p: nat, st: CState)
    requires Good(st) && p < |pat| && pat[p] == '[' as int
    ensures Step(pat, p, st) == ReadBracket(pat, p + 1, st)
  {
    hide ReadBracket, Good;
  }

  lemma SetIsGood(st: CState, g: Code)
    requires Good(st) && |g| >= 2
    ensures
      var st' := st.(code := st.code + g, laststart := Some(|st.code|));
      Good(st') && Inert(st')
  {
    hide StackFits;
  }

  lemma ReadOpen(pat: Text, p: nat, st: CState)
    requires Good(st) && p < |pat| && pat[p] == '(' as int
    ensures CompileFrom(pat, p, st) == CompileFrom(pat, p + 1, Open(st))
    ensures Open(st).begalt == |Open(st).code| && Open(st).fixup.None? && Inert(Open(st))
    ensures Open(st).regnum == st.regnum + 1
  {
    hide Good;
    assert Step(pat, p, st) == Ok((p + 1, Open(st)));
  }

  lemma ReadClose(pat: Text, p: nat, st: CState)
    requires Good(st) && p < |pat| && pat[p] == ')' as int
    ensures CompileFrom(pat, p, st) == CompileFrom(pat, p + 1, Close(st, Peek(pat, p + 1)))
  {
    hide Good, Close, Peek;
    assert Step(pat, p, st) == Ok((p + 1, Close(st, Peek(pat, p + 1))));
  }

  lemma ReadBar(pat: Text, p: nat, st: CState)
    requires Good(st) && p < |pat| && pat[p] == '|' as int
    ensures CompileFrom(pat, p, st) == CompileFrom(pat, p + 1, Alternative(st))
    ensures Alternative(st).begalt == |Alternative(st).code| && Alternative(st).fixup.Some?
    ensures Inert(Alternative(st))
    ensures Alternative(st).stack == st.stack && Alternative(st).regnum == st.regnum
  {
    hide Good;
    assert Step(pat, p, st) == Ok((p + 1, Alternative(st)));
  }

  lemma FreshLiteral(st: CState, c: byte, next: byte)
    requires Good(st) && !PlainNext(next)
    ensures
      var st' := Literal(st, c, next);
      && st'.code == st.code + AtomCode(Chr(c), st.regnum) && st'.laststart == Some(|st.code|)
      && st'.code == st.code + Flush([c]) && st'.pending == Some(|st.code| + 1)
      && SamePlace(st, st') && st'.regnum == st.regnum
  {
  }

  lemma GrowsInert(st: CState, st': CState)
    requires Good(st) && Good(st') && st'.pending == st.pending && st.code < st'.code
    ensures Inert(st')
  {
  }

  lemma {:induction false} ReadAtom(a: Atom, pat: Text, p: nat, st: CState) returns (st': CState)
    requires WellFormedAtom(a, true) && Good(st) && Sub(pat, p, AtomText(a))
    requires a.Chr? ==> !PlainNext(Peek(pat, p + |AtomText(a)|))
    ensures Good(st') && CompileFrom(pat, p, st) == CompileFrom(pat, p + |AtomText(a)|, st')
    ensures st'.code == st.code + AtomCode(a, st.regnum) && st'.laststart == Some(|st.code|)
    ensures SamePlace(st, st') && st'.regnum == st.regnum + GroupsA(a)
    ensures a.Chr? || Inert(st')
    decreases a
  {
    hide Good, Sub, CompileFrom, Open, Close, Literal, RegexCode, RegexText, BracketText, BracketCode, SPECIALS, Seal;
    AtomStart(a);
    SubFirst(pat, p, AtomText(a));
    match a
    case Chr(c) =>
      ReadLiteral(c, pat, p, st);
      FreshLiteral(st, c, Peek(pat, p + |AtomText(a)|));
      st' := Literal(st, c, Peek(pat, p + |AtomText(a)|));
    case Dot =>
      ReadDot(pat, p, st);
      st' := AnyChar(st);
      GrowsInert(st, st');
    case Set(br) =>
      ReadSet(br, pat, p, st);
      st' := st.(code := st.code + BracketCode(br), laststart := Some(|st.code|));
    case Group(r) =>
      SubParts(pat, p, ['(' as int] + RegexText(r), [')' as int]);
      SubParts(pat, p, ['(' as int], RegexText(r));
      ReadOpen(pat, p, st);
      var st1 := Open(st);
      var e := p + 1 + |RegexText(r)|;
      SubFirst(pat, e, [')' as int]);
      var st2 := ReadRegex(r, pat, p + 1, st1);
      ReadClose(pat, e, st2);
      st' := Close(st2, Peek(pat, e + 1));
      CloseGroup(r, st, st2, Peek(pat, e + 1));
  }

  lemma NothingToSeal(st: CState)
    requires Good(st)
    ensures st.fixup.None? ==> Seal(st) == st.code
  {
  }

  lemma CloseGroup(r: Regex, st: CState, st2: CState, next: byte)
    requires Good(st) && Good(st2)
    requires Seal(st2) == Open(st).code + RegexCode(r, st.regnum + 1)
    requires st2.fixup.Some? <==> r.Or?
    requires st2.stack == Open(st).stack && st2.regnum == st.regnum + 1 + GroupsR(r)
    ensures
      var st' := Close(st2, next);
      && Inert(st')
      && st'.code == st.code + AtomCode(Group(r), st.regnum)
      && st'.laststart == Some(|st.code|)
      && SamePlace(st, st') && st'.regnum == st.regnum + GroupsA(Group(r))
  {
    hide Good, StackFits, RegexCode, GroupCode, StoreOp1, Seal;
    var f := Frame(st.begalt, st.fixup, |st.code|, st.regnum + 1);
    assert st2.stack[|st2.stack| - 1] == f && st2.stack[..|st2.stack| - 1] == st.stack;
    var d: Code := if r.Or? then [PUSH_DUMMY_FAILURE] else [];
    var c := if r.Or? then Seal(st2) + [PUSH_DUMMY_FAILURE] else st2.code;
    NothingToSeal(st2);
    assert c == Open(st).code + RegexCode(r, st.regnum + 1) + d;
    GroupBytes(st.code, RegexCode(r, st.regnum + 1), st.regnum + 1, GroupsR(r), r.Or?);
  }

  // Filling in the number of inner groups and adding the end of the group completes it.
  lemma GroupBytes(base: Code, body: Code, regnum: nat, inner: nat, alternatives: bool)
    ensures
      var d: Code := if alternatives then [PUSH_DUMMY_FAILURE] else [];
      var i: byte := inner % 256;
      if regnum <= MAX_REGNUM then
        (base + [START_MEMORY, regnum, 0] + body + d)[|base| + 2 := i] + [STOP_MEMORY, regnum, i]
        == base + GroupCode(body, regnum, inner, alternatives)
      else
        base + [] + body + d == base + GroupCode(body, regnum, inner, alternatives)
  {
    var d: Code := if alternatives then [PUSH_DUMMY_FAILURE] else [];
    var i: byte := inner % 256;
    if regnum <= MAX_REGNUM {
      var e: Code := [STOP_MEMORY, regnum, i];
      var h: Code := [START_MEMORY, regnum, i];
      assert (base + [START_MEMORY, regnum, 0] + (body + d))[|base| + 2 := i] == base + h + (body + d);
      assert base + [START_MEMORY, regnum, 0] + body + d == base + [START_MEMORY, regnum, 0] + (body + d);
      assert base + h + (body + d) + e == base + (h + body + d + e);
    } else {
      assert base + [] + body + d == base + ([] + body + d + []);
    }
  }

  // ----- intervals -----

  lemma InsertedAfter(base: Code, rest: Code, g: Code)
    ensures Inserted(base + rest, |base|, g) == base + (g + rest)
  {
    assert (base + rest)[..|base|] == base && (base + rest)[|base|..] == rest;
  }

  lemma Regroup(a: Code, b: Code, c: Code, d: Code, e: Code)
    ensures a + (b + (c + d)) + e == a + (b + (c + (d + e)))
  {
  }

  lemma IntervalIs(st: CState, base: Code, X: Code, lower: nat, upper: nat)
    requires Good(st) && st.code == base + X
    requires |base| == if st.laststart.Some? then st.laststart.value else |st.code|
    ensures Interval(st, lower, upper).code == base + IntervalCode(X, lower, upper)
  {
    hide Op1, Op2, Inserted, StackFits;
    if upper == 0 {
      InsertedAfter(base, X, Op1(JUMP, |X|));
    } else if upper == 1 {
      var s := Op2(SUCCEED_N, |X| + 2, lower);
      InsertedAfter(base, X, s);
      InsertedAfter(base, s + X, Op2(SET_NUMBER_AT, 5, lower));
    } else {
      var s := Op2(SUCCEED_N, |X| + 7, lower);
      var t := Op2(SET_NUMBER_AT, 5, lower);
      var j := Op2(JUMP_N, -|X| - 8, upper - 1);
      InsertedAfter(base, X, s);
      InsertedAfter(base, s + X, t);
      Regroup(base, t, s, X, j);
      InsertedAfter(base, t + (s + (X + j)), Op2(SET_NUMBER_AT, |X| + 15, upper - 1));
    }
  }

  lemma ReadTimes(b: Bounds, pat: Text, p: nat, st: CState)
    requires InOrder(b) && Good(st) && Sub(pat, p, PostText(Times(b)))
    ensures CompileFrom(pat, p, st) == CompileFrom(pat, p + |PostText(Times(b))|, Interval(st, Lower(b), Upper(b)))
  {
    hide *;
    TimesText(b);
    SubParts(pat, p, ['{' as int], BoundsText(b));
    SubFirst(pat, p, ['{' as int]);
    BoundsRead(b, pat, p + 1);
    BraceRead(pat, p, st, p + 1 + |BoundsText(b)|, Lower(b), Upper(b));
  }

  lemma TimesText(b: Bounds)
    ensures PostText(Times(b)) == ['{' as int] + BoundsText(b)
  {
  }

  lemma BraceRead(pat: Text, p: nat, st: CState, e: nat, lower: nat, upper: nat)
    requires Good(st) && p < |pat| && pat[p] == '{' as int && ReadBounds(pat, p + 1) == Some((e, lower, upper))
    ensures CompileFrom(pat, p, st) == CompileFrom(pat, e, Interval(st, lower, upper))
  {
    hide Good, Interval, ReadBounds, Step;
    StepBrace(pat, p, st);
  }

  lemma StepBrace(pat: Text, p: nat, st: CState)
    requires Good(st) && p < |pat| && pat[p] == '{' as int
    ensures Step(pat, p, st) == Ok(ReadInterval(pat, p + 1, st))
  {
    hide ReadInterval, Good;
  }

  lemma IntervalPlace(st: CState, lower: nat, upper: nat)
    requires Good(st) && st.laststart.Some?
    ensures
      var st' := Interval(st, lower, upper);
      && Good(st') && Inert(st') && SamePlace(st, st') && st'.regnum == st.regnum && st'.laststart == st.laststart
  {
    hide Good, Op1, Op2, Inserted;
  }

  lemma PostStart(posts: seq<Post>)
    requires WellFormedPosts(posts) && posts != []
    ensures PostsText(posts) != [] && !PlainNext(PostsText(posts)[0])
    ensures posts[0].Times? ==> PostsText(posts)[0] == '{' as int
  {
  }

  // One repetition or interval after what stands at base.
  lemma ReadPost(post: Post, base: Code, X: Code, pat: Text, p: nat, st: CState) returns (st': CState)
    requires WellFormedPosts([post]) && Good(st) && st.code == base + X && st.laststart == Some(|base|)
    requires Sub(pat, p, PostText(post)) && (post.Again? ==> !IsRepChar(Peek(pat, p + |PostText(post)|)))
    ensures Good(st') && CompileFrom(pat, p, st) == CompileFrom(pat, p + |PostText(post)|, st')
    ensures st'.code == base + PostCode(X, post) && st'.laststart == Some(|base|) && Inert(st')
    ensures SamePlace(st, st') && st'.regnum == st.regnum
  {
    hide Good, Sub, CompileFrom, RepCode, ZeroOk, ManyOk, Repeat, Interval, IntervalCode, BoundsText, OpsText, InOrder, Lower,
      Upper, Peek, Inert, SamePlace, IsRepChar;
    match post
    case Again(ops) =>
      ReadOps(ops, pat, p, st);
      RepeatCode(st, base, X, ZeroOk(ops), ManyOk(ops));
      RepeatPlace(st, ZeroOk(ops), ManyOk(ops));
      st' := Repeat(st, ZeroOk(ops), ManyOk(ops));
    case Times(b) =>
      ReadTimes(b, pat, p, st);
      IntervalIs(st, base, X, Lower(b), Upper(b));
      IntervalPlace(st, Lower(b), Upper(b));
      st' := Interval(st, Lower(b), Upper(b));
  }

  lemma PostSplit(posts: seq<Post>)
    requires WellFormedPosts(posts) && posts != []
    ensures WellFormedPosts([posts[0]]) && WellFormedPosts(posts[1..])
    ensures PostsText(posts) == PostText(posts[0]) + PostsText(posts[1..])
    ensures forall X: Code :: PostsCode(X, posts) == PostsCode(PostCode(X, posts[0]), posts[1..])
  {
    assert WellFormedPosts([]);
  }

  // What follows one of them is no repetition character.
  lemma AfterPost(posts: seq<Post>, pat: Text, e: nat)
    requires WellFormedPosts(posts) && posts != [] && Sub(pat, e, PostsText(posts[1..]))
    requires PlainNext(Peek(pat, e + |PostsText(posts[1..])|))
    ensures posts[0].Again? ==> !IsRepChar(Peek(pat, e))
  {
    if posts[1..] != [] {
      PostStart(posts[1..]);
      SubFirst(pat, e, PostsText(posts[1..]));
    }
  }

  lemma {:induction false} ReadPosts(posts: seq<Post>, base: Code, X: Code, pat: Text, p: nat, st: CState) returns (st': CState)
    requires WellFormedPosts(posts) && Good(st) && (posts == [] ==> Inert(st))
    requires st.code == base + X && st.laststart == Some(|base|)
    requires Sub(pat, p, PostsText(posts)) && PlainNext(Peek(pat, p + |PostsText(posts)|))
    ensures Good(st') && CompileFrom(pat, p, st) == CompileFrom(pat, p + |PostsText(posts)|, st')
    ensures st'.code == base + PostsCode(X, posts) && Inert(st')
    ensures SamePlace(st, st') && st'.regnum == st.regnum
    decreases |posts|
  {
    hide Good, Sub, CompileFrom, PostCode, PostText, WellFormedPosts, PlainNext, Peek, Inert, IsRepChar;
    if posts == [] {
      st' := st;
    } else {
      PostSplit(posts);
      var e := p + |PostText(posts[0])|;
      SubParts(pat, p, PostText(posts[0]), PostsText(posts[1..]));
      AfterPost(posts, pat, e);
      hide PostsText, PostsCode;
      var st1 := ReadPost(posts[0], base, X, pat, p, st);
      st' := ReadPosts(posts[1..], base, PostCode(X, posts[0]), pat, e, st1);
    }
  }

  lemma RepeatPlace(st: CState, zeroOk: bool, manyOk: bool)
    requires Good(st) && st.laststart.Some?
    ensures
      var st' := Repeat(st, zeroOk, manyOk);
      && Good(st') && Inert(st') && SamePlace(st, st') && st'.regnum == st.regnum && st'.laststart == st.laststart
  {
    hide Good, Op1, InsertOp1;
  }

  // ----- pieces and branches -----

  // What is put after the atom of a piece.
  function PostsOf(q: Piece): seq<Post> {
    match q
    case Single(_) => []
    case Rep(_, ops) => [Again(ops)]
    case Bounded(_, posts) => posts
  }

  lemma PieceIs(q: Piece, reg: nat)
    ensures PieceText(q) == AtomText(q.atom) + PostsText(PostsOf(q))
    ensures PieceCode(q, reg) == PostsCode(AtomCode(q.atom, reg), PostsOf(q))
    ensures WellFormedPiece(q, true) ==> WellFormedAtom(q.atom, true) && WellFormedPosts(PostsOf(q))
    ensures WellFormedPiece(q, true) && !IsLiteral(q) && PostsOf(q) == [] ==> !q.atom.Chr?
  {
    hide AtomText, AtomCode, RepCode;
    if q.Rep? {
      var post := Again(q.ops);
      assert [post][1..] == [] && PostsText([]) == [];
      assert PostsText([post]) == PostText(post) + [];
      assert PostsCode(AtomCode(q.atom, reg), [post]) == PostCode(AtomCode(q.atom, reg), post);
    }
  }

  lemma {:induction false} ReadPiece(q: Piece, pat: Text, p: nat, st: CState) returns (st': CState)
    requires WellFormedPiece(q, true) && !IsLiteral(q) && Good(st) && Sub(pat, p, PieceText(q))
    requires PlainNext(Peek(pat, p + |PieceText(q)|))
    ensures Good(st') && CompileFrom(pat, p, st) == CompileFrom(pat, p + |PieceText(q)|, st')
    ensures st'.code == st.code + PieceCode(q, st.regnum) && Inert(st')
    ensures SamePlace(st, st') && st'.regnum == st.regnum + GroupsA(q.atom)
    decreases q
  {
    hide *;
    PieceIs(q, st.regnum);
    var posts := PostsOf(q);
    var e := p + |AtomText(q.atom)|;
    SubParts(pat, p, AtomText(q.atom), PostsText(posts));
    if posts != [] {
      PostStart(posts);
      SubFirst(pat, e, PostsText(posts));
    }
    var st1 := ReadAtom(q.atom, pat, p, st);
    st' := ReadPosts(posts, st.code, AtomCode(q.atom, st.regnum), pat, e, st1);
    SamePlaceThrough(st, st1, st');
  }

  lemma SamePlaceThrough(st: CState, st1: CState, st2: CState)
    requires SamePlace(st, st1) && SamePlace(st1, st2)
    ensures SamePlace(st, st2)
  {
  }

  lemma BranchIs(b: Branch, run: Text, reg: nat)
    requires b.Then? && |run| <= 255
    ensures BranchText(b) == PieceText(b.first) + BranchText(b.rest)
    ensures WellFormedBranch(b, true) ==> WellFormedPiece(b.first, true) && WellFormedBranch(b.rest, true)
    ensures GroupsB(b) == GroupsA(b.first.atom) + GroupsB(b.rest)
    ensures BranchCode(b, run, reg) ==
      if IsLiteral(b.first) then
        if 0 < |run| < 255 then BranchCode(b.rest, run + [b.first.atom.c], reg)
        else Flush(run) + BranchCode(b.rest, [b.first.atom.c], reg)
      else Flush(run) + PieceCode(b.first, reg) + BranchCode(b.rest, [], reg + GroupsA(b.first.atom))
  {
    hide PieceText, PieceCode, WellFormedPiece, GroupsA, Flush;
  }

  // An empty branch, read.
  lemma EmptyIs(b: Branch, run: Text, reg: nat)
    requires b.Empty? && |run| <= 255
    ensures BranchText(b) == [] && GroupsB(b) == 0 && BranchCode(b, run, reg) == Flush(run)
  {
  }

  lemma {:induction false} ReadBranch(b: Branch, run: Text, base: Code, pat: Text, p: nat, st: CState)
    returns (st': CState)
    requires WellFormedBranch(b, true) && |run| <= 255 && Good(st)
    requires Sub(pat, p, BranchText(b)) && PlainNext(Peek(pat, p + |BranchText(b)|))
    requires st.code == base + Flush(run)
    requires if run == [] then Inert(st) else st.pending == Some(|base| + 1)
    ensures Good(st') && CompileFrom(pat, p, st) == CompileFrom(pat, p + |BranchText(b)|, st')
    ensures st'.code == base + BranchCode(b, run, st.regnum)
    ensures SamePlace(st, st') && st'.regnum == st.regnum + GroupsB(b)
    decreases b
  {
    hide *;
    if b.Empty? {
      EmptyIs(b, run, st.regnum);
      SamePlaceSelf(st);
      st' := st;
    } else {
      BranchIs(b, run, st.regnum);
      SubParts(pat, p, PieceText(b.first), BranchText(b.rest));
      var e := p + |PieceText(b.first)|;
      BranchStart(b.rest, pat, e);
      if IsLiteral(b.first) {
        var c, st1 := ReadLiteralPiece(b.first, pat, p, st);
        if 0 < |run| < 255 {
          LiteralExtends(st, base, run, c, Peek(pat, e));
          st' := ReadBranch(b.rest, run + [c], base, pat, e, st1);
        } else {
          LiteralStarts(st, base, run, c, Peek(pat, e));
          st' := ReadBranch(b.rest, [c], base + Flush(run), pat, e, st1);
          Assoc(base, Flush(run), BranchCode(b.rest, [c], st.regnum));
        }
        SamePlaceThrough(st, st1, st');
      } else {
        var st1 := ReadPiece(b.first, pat, p, st);
        NoRun(st1.code);
        st' := ReadBranch(b.rest, [], st1.code, pat, e, st1);
        Assoc(base, Flush(run), PieceCode(b.first, st.regnum));
        Assoc(base, Flush(run) + PieceCode(b.first, st.regnum), BranchCode(b.rest, [], st1.regnum));
        SamePlaceThrough(st, st1, st');
      }
    }
  }

  lemma SamePlaceSelf(st: CState)
    ensures SamePlace(st, st)
  {
  }

  lemma ReadLiteralPiece(q: Piece, pat: Text, p: nat, st: CState) returns (c: byte, st1: CState)
    requires WellFormedPiece(q, true) && IsLiteral(q) && Good(st) && Sub(pat, p, PieceText(q))
    ensures q.Single? && q.atom.Chr? && c == q.atom.c && GroupsA(q.atom) == 0
    ensures st1 == Literal(st, c, Peek(pat, p + |PieceText(q)|))
    ensures Good(st1) && CompileFrom(pat, p, st) == CompileFrom(pat, p + |PieceText(q)|, st1)
  {
    hide *;
    LiteralText(q);
    c := q.atom.c;
    ReadLiteral(c, pat, p, st);
    st1 := Literal(st, c, Peek(pat, p + |PieceText(q)|));
  }

  lemma LiteralText(q: Piece)
    requires IsLiteral(q)
    ensures q.Single? && q.atom.Chr?
    ensures PieceText(q) == AtomText(Chr(q.atom.c)) && GroupsA(q.atom) == 0
    ensures WellFormedPiece(q, true) ==> q.atom.c != 0
  {
  }

  lemma LiteralExtends(st: CState, base: Code, run: Text, c: byte, next: byte)
    requires Good(st) && 0 < |run| < 255 && PlainNext(next)
    requires st.code == base + Flush(run) && st.pending == Some(|base| + 1)
    ensures
      var st1 := Literal(st, c, next);
      && st1.code == base + Flush(run + [c]) && st1.pending == Some(|base| + 1)
      && SamePlace(st, st1) && st1.regnum == st.regnum
  {
    hide Good, StackFits;
    var q := |base| + 1;
    var n := |run| + 1;
    FlushOneMore(base, run, c);
    assert st.code[q] == |run|;
    assert Literal(st, c, next) == st.(code := st.code[q := n] + [c]);
  }

  lemma FlushOneMore(base: Code, run: Text, c: byte)
    requires 0 < |run| < 255
    ensures
      var code := base + Flush(run);
      && |code| == |base| + 2 + |run| && code[|base| + 1] == |run|
      && code[|base| + 1 := |run| + 1] + [c] == base + Flush(run + [c])
  {
    var n: byte := |run| + 1;
    var tail := Flush(run);
    assert (base + tail)[|base| + 1 := n] == base + tail[1 := n];
    assert tail[1 := n] + [c] == Flush(run + [c]);
    Assoc(base, tail[1 := n], [c]);
  }

  lemma LiteralStarts(st: CState, base: Code, run: Text, c: byte, next: byte)
    requires Good(st) && (|run| == 0 || |run| == 255)
    requires st.code == base + Flush(run)
    requires if run == [] then Inert(st) else st.pending == Some(|base| + 1)
    ensures
      var st1 := Literal(st, c, next);
      && st1.code == base + Flush(run) + Flush([c]) && st1.pending == Some(|base + Flush(run)| + 1)
      && SamePlace(st, st1) && st1.regnum == st.regnum
  {
    if run != [] {
      assert st.code[|base| + 1] == Flush(run)[1] == 255;
    }
    assert StartsExactn(st, next);
  }

  // ----- alternatives -----

  // The code with the reserved jump, if any, stored to lead k bytes past its end.
  function SealTo(st: CState, k: nat): (r: Code)
    requires Good(st)
    ensures |r| == |st.code|
  {
    if st.fixup.Some? then StoreOp1(st.code, JUMP_PAST_ALT, st.fixup.value, |st.code| - st.fixup.value - 3 + k)
    else st.code
  }

  lemma {:induction false} ReadRegex(r: Regex, pat: Text, p: nat, st: CState) returns (st': CState)
    requires WellFormed(r, true) && Good(st) && Sub(pat, p, RegexText(r)) && PlainNext(Peek(pat, p + |RegexText(r)|))
    requires st.begalt == |st.code| && Inert(st)
    ensures Good(st') && CompileFrom(pat, p, st) == CompileFrom(pat, p + |RegexText(r)|, st')
    ensures Seal(st') == SealTo(st, FirstAltEnd(r, st.regnum)) + RegexCode(r, st.regnum)
    ensures st'.fixup.Some? <==> st.fixup.Some? || r.Or?
    ensures st'.stack == st.stack && st'.regnum == st.regnum + GroupsR(r)
    decreases r
  {
    hide Good, Sub, CompileFrom, BranchCode, BranchText, Alternative, Seal, SealTo, Inert, Op1, GroupsB, WellFormedBranch, Peek;
    if r.Last? {
      st' := ReadBranch(r.branch, [], st.code, pat, p, st);
      SealLast(st, st', BranchCode(r.branch, [], st.regnum));
    } else {
      var w := BranchText(r.branch);
      SubParts(pat, p, w + ['|' as int], RegexText(r.rest));
      SubParts(pat, p, w, ['|' as int]);
      SubFirst(pat, p + |w|, ['|' as int]);
      var st1 := ReadBranch(r.branch, [], st.code, pat, p, st);
      var first := BranchCode(r.branch, [], st.regnum);
      ReadBar(pat, p + |w|, st1);
      var st2 := Alternative(st1);
      SealNext(st, st1, first, FirstAltEnd(r.rest, st1.regnum), RegexCode(r.rest, st1.regnum));
      st' := ReadRegex(r.rest, pat, p + |w| + 1, st2);
    }
  }

  lemma StoreInside(a: Code, b: Code, op: byte, x: nat, arg: int)
    requires x + 3 <= |a|
    ensures StoreOp1(a + b, op, x, arg) == StoreOp1(a, op, x, arg) + b
  {
    assert (a + b)[..x] == a[..x] && (a + b)[x + 3..] == a[x + 3..] + b;
  }

  lemma StoreAtEnd(a: Code, hole: Code, op: byte, arg: int)
    requires |hole| == 3
    ensures StoreOp1(a + hole, op, |a|, arg) == a + Op1(op, arg)
  {
    assert (a + hole)[..|a|] == a && (a + hole)[|a| + 3..] == [];
  }

  lemma SealLast(st: CState, st1: CState, first: Code)
    requires Good(st) && Good(st1) && SamePlace(st, st1) && st.begalt == |st.code|
    requires st1.code == st.code + first
    ensures Seal(st1) == SealTo(st, |first|) + first
  {
    hide StoreOp1;
    if st.fixup.Some? {
      StoreInside(st.code, first, JUMP_PAST_ALT, st.fixup.value, |st1.code| - st.fixup.value - 3);
    }
  }

  lemma SealNext(st: CState, st1: CState, first: Code, k: nat, more: Code)
    requires Good(st) && Good(st1) && SamePlace(st, st1) && st.begalt == |st.code|
    requires st1.code == st.code + first
    ensures SealTo(Alternative(st1), k) + more
         == SealTo(st, 3 + |first|) + (Op1(ON_FAILURE_JUMP, |first| + 3) + first + Op1(JUMP_PAST_ALT, k) + more)
  {
    hide StoreOp1, InsertOp1, Op1, StackFits;
    var st2 := Alternative(st1);
    var f := Op1(ON_FAILURE_JUMP, |first| + 3);
    var base := SealTo(st, 3 + |first|);
    Insertion(st.code, first, ON_FAILURE_JUMP, |first| + 3);
    var c1 := st.code + (f + first);
    assert InsertOp1(st1.code, ON_FAILURE_JUMP, st1.begalt, |st1.code| + 6 - st1.begalt - 3) == c1;
    var c2 := base + (f + first);
    if st.fixup.Some? {
      StoreInside(st.code, f + first, JUMP_PAST_ALT, st.fixup.value, |c1| - st.fixup.value - 3);
    }
    assert st2.code == c2 + [0, 0, 0] && st2.fixup == Some(|c2|);
    StoreAtEnd(c2, [0, 0, 0], JUMP_PAST_ALT, k);
    var q := Op1(JUMP_PAST_ALT, k);
    assert c2 + q + more == base + (f + first + q + more);
  }

  // Compiling the text of a tree yields the code of the tree.
  lemma CompilesToCode(r: Regex)
    requires WellFormed(r, true)
    ensures Compile(RegexText(r)) == Ok(RegexCode(r, 0))
  {
    hide WellFormed, RegexText, RegexCode, SealTo, FirstAltEnd, WellFormedBranch, BranchText, BranchCode, GroupsB,
      Op1, Good, Seal, GroupsR, StoreOp1;
    var pat := RegexText(r);
    assert Sub(pat, 0, pat);
    var st := ReadRegex(r, pat, 0, Init());
    assert SealTo(Init(), FirstAltEnd(r, 0)) + RegexCode(r, 0) == RegexCode(r, 0);
  }

  // A tree without intervals is one of the trees that may have them.
  lemma {:induction false} WithIntervals(r: Regex)
    requires WellFormed(r)
    ensures WellFormed(r, true)
    decreases r
  {
    hide WellFormedBranch;
    BranchWithIntervals(r.branch);
    if r.Or? {
      WithIntervals(r.rest);
    }
  }

  lemma {:induction false} BranchWithIntervals(b: Branch)
    requires WellFormedBranch(b)
    ensures WellFormedBranch(b, true)
    decreases b
  {
    hide WellFormedPiece;
    if b.Then? {
      PieceWithIntervals(b.first);
      BranchWithIntervals(b.rest);
    }
  }

  lemma {:induction false} PieceWithIntervals(q: Piece)
    requires WellFormedPiece(q)
    ensures WellFormedPiece(q, true)
    decreases q
  {
    hide WellFormed;
    if q.atom.Group? {
      WithIntervals(q.atom.r);
    }
  }
}
