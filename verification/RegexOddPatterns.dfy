/**
 Patterns that are not the text of a tree: which errors they are answered with, and what becomes
 of the operators, braces and parentheses that stand for themselves.
 */
module RegexOddPatterns {
  import opened Wrappers
  import opened Numerals
  import opened RegexBytes
  import opened RegexSyntax
  import opened RegexGen
  import opened RegexCompileSpec
  import opened RegexBounds
  import opened RegexCompileProof

  // ----- a tree, and something after it -----

  lemma ReadFront(r: Regex, rest: Text) returns (st: CState)
    requires WellFormed(r, true) && rest != [] && PlainNext(rest[0])
    ensures
      var pat, p := RegexText(r) + rest, |RegexText(r)|;
      Good(st) && Compile(pat) == CompileFrom(pat, p, st) && Sub(pat, p, rest) && p < |pat| && pat[p] == rest[0]
  {
    var pat := RegexText(r) + rest;
    hide WellFormed, RegexText, CompileFrom, RegexCode, Seal, SealTo, Good, PlainNext;
    WholeIs(RegexText(r), rest);
    st := ReadRegex(r, pat, 0, Init());
  }

  lemma WholeIs(u: Text, v: Text)
    ensures Sub(u + v, 0, u) && Sub(u + v, |u|, v)
    ensures v != [] ==> Peek(u + v, |u|) == v[0]
  {
  }

  lemma StepFails(pat: Text, p: nat, st: CState)
    requires Good(st) && p < |pat| && Step(pat, p, st).Err?
    ensures CompileFrom(pat, p, st) == Err(Step(pat, p, st).error)
  {
    hide Step, Good;
  }

  // ----- bracket expressions -----

  // An error after the items is the answer of the whole bracket expression.
  lemma BracketFails(br: Bracket, pat: Text, p: nat, st: CState)
    requires WellFormedStart(br) && Sub(pat, p, StartText(br)) && Good(st)
    requires br.closeFirst || br.items != [] ==> Follows(pat, p + |StartText(br)|, br.items)
    requires !br.negated && !br.closeFirst && br.items == [] ==> Peek(pat, p + |StartText(br)|) != '^' as int
    requires BracketLoop(pat, p + |StartText(br)|, FirstPlace(br, p), StartMap(br)).Err?
    ensures CompileFrom(pat, p, st) == Err(BracketLoop(pat, p + |StartText(br)|, FirstPlace(br, p), StartMap(br)).error)
  {
    hide Sub, BracketLoop, StartMap, StartText, Follows, WellFormedStart, Good, Step, CompileFrom, ZeroMap;
    StartBegins(br, pat, p);
    StepSet(pat, p, st);
    if !br.negated && !br.closeFirst && br.items == [] {
      OnlyHyphen(br, p);
      if p + 1 >= |pat| {
        NothingLeft(pat, p + 1, FirstPlace(br, p), StartMap(br));
      }
    } else {
      ReadStart(br, pat, p);
    }
    StepFails(pat, p, st);
  }

  lemma NothingLeft(pat: Text, p: nat, first: nat, map8: seq<byte>)
    requires |pat| <= p && 1 <= first <= p && |map8| == 32
    ensures BracketLoop(pat, p, first, map8) == Err(Ebrack)
  {
  }

  lemma StartBegins(br: Bracket, pat: Text, p: nat)
    requires Sub(pat, p, StartText(br))
    ensures p < |pat| && pat[p] == '[' as int && 1 <= FirstPlace(br, p) <= p + |StartText(br)|
  {
    SubFirst(pat, p, StartText(br));
  }

  // A bracket expression that is not closed.
  lemma OpenBracket(r: Regex, br: Bracket)
    requires WellFormed(r, true) && WellFormedStart(br)
    ensures Compile(RegexText(r) + StartText(br)) == Err(Ebrack)
  {
    hide WellFormed, RegexText, StartText, WellFormedStart, BracketLoop, StartMap, Sub, CompileFrom, Compile, ItemStart, Good;
    var pat, p := RegexText(r) + StartText(br), |RegexText(r)|;
    StartIs(br);
    var st := ReadFront(r, StartText(br));
    StartBegins(br, pat, p);
    NothingLeft(pat, |pat|, FirstPlace(br, p), StartMap(br));
    BracketFails(br, pat, p, st);
  }

  lemma StartIs(br: Bracket)
    ensures StartText(br) != [] && StartText(br)[0] == '[' as int
  {
  }

  // A range turned round, or cut off at the end of the pattern; lo is the item that would come next.
  lemma BadRange(r: Regex, br: Bracket, lo: byte, hi: byte, after: Text)
    requires WellFormed(r, true) && WellFormedStart(br.(items := br.items + [One(lo)]))
    ensures lo > hi && hi != ']' as int ==> Compile(RegexText(r) + (StartText(br) + ([lo, '-' as int, hi] + after))) == Err(Erange)
    ensures Compile(RegexText(r) + (StartText(br) + [lo, '-' as int])) == Err(Erange)
  {
    hide *;
    RangeStart(br, lo);
    if lo > hi && hi != ']' as int {
      RangeParts(lo, hi, after);
      RangeFails(r, br, [lo, '-' as int, hi] + after);
    }
    RangeFails(r, br, [lo, '-' as int]);
  }

  lemma RangeParts(lo: byte, hi: byte, after: Text)
    ensures
      var rest: Text := [lo, '-' as int, hi] + after;
      |rest| >= 3 && rest[0] == lo && rest[1] == '-' as int && rest[2] == hi
  {
  }

  // What may come after the start of a bracket expression, as an item.
  lemma RangeStart(br: Bracket, lo: byte)
    requires WellFormedStart(br.(items := br.items + [One(lo)]))
    ensures WellFormedStart(br) && Listable(lo)
    ensures lo == '-' as int ==> !br.closeFirst && br.items == []
    ensures br.items != [] && br.items[|br.items| - 1] == One('[' as int) ==> lo != ':' as int
    ensures !br.negated && !br.closeFirst && br.items == [] ==> lo != '^' as int
  {
    var n := |br.items|;
    var more := br.items + [One(lo)];
    hide WellFormedItem;
    assert more[n] == One(lo) && forall k | 0 <= k < n :: more[k] == br.items[k];
    assert WellFormedItem(more[n]);
    OneIs(lo);
  }

  lemma OneIs(lo: byte)
    ensures WellFormedItem(One(lo)) <==> Listable(lo)
  {
  }

  lemma RangeFails(r: Regex, br: Bracket, rest: Text)
    requires WellFormed(r, true) && WellFormedStart(br) && |rest| >= 2 && Listable(rest[0]) && rest[1] == '-' as int
    requires |rest| == 2 || (rest[2] != ']' as int && rest[0] > rest[2])
    requires rest[0] == '-' as int ==> !br.closeFirst && br.items == []
    requires br.items != [] && br.items[|br.items| - 1] == One('[' as int) ==> rest[0] != ':' as int
    requires !br.negated && !br.closeFirst && br.items == [] ==> rest[0] != '^' as int
    ensures Compile(RegexText(r) + (StartText(br) + rest)) == Err(Erange)
  {
    hide *;
    var w := StartText(br) + rest;
    var pat, p := RegexText(r) + w, |RegexText(r)|;
    var e := p + |StartText(br)|;
    StartIs(br);
    BracketIsPlain();
    var st := ReadFront(r, w);
    SubParts(pat, p, StartText(br), rest);
    StartBegins(br, pat, p);
    RestPlaces(br, pat, p, e, rest);
    CutRange(pat, e, FirstPlace(br, p), StartMap(br));
    BracketFails(br, pat, p, st);
  }

  lemma BracketIsPlain()
    ensures PlainNext('[' as int)
  {
  }

  lemma RestPlaces(br: Bracket, pat: Text, p: nat, e: nat, rest: Text)
    requires Sub(pat, p, StartText(br)) && e == p + |StartText(br)| && Sub(pat, e, rest) && e + |rest| == |pat|
    requires |rest| >= 2 && Listable(rest[0]) && rest[1] == '-' as int
    requires |rest| == 2 || (rest[2] != ']' as int && rest[0] > rest[2])
    requires rest[0] == '-' as int ==> !br.closeFirst && br.items == []
    requires br.items != [] && br.items[|br.items| - 1] == One('[' as int) ==> rest[0] != ':' as int
    requires p < |pat| && pat[p] == '[' as int && WellFormedStart(br)
    ensures Peek(pat, e) == rest[0] && (br.closeFirst || br.items != [] ==> Follows(pat, e, br.items))
    ensures e + 1 < |pat| && pat[e] == rest[0] && pat[e + 1] == '-' as int && pat[e] != ']' as int
    ensures Peek(pat, e + 2) != ']' as int && (e + 2 < |pat| ==> pat[e] > pat[e + 2])
    ensures pat[e] == '-' as int ==> AfterOpening(pat, e)
  {
    assert pat[e..e + |rest|] == rest;
    assert pat[e] == rest[0] && pat[e + 1] == rest[1];
    if |rest| > 2 {
      assert pat[e + 2] == rest[2];
    }
    if rest[0] == '-' as int {
      hide Sub, Follows, WellFormedStart;
      NoItems(br, pat, p);
    }
  }

  lemma NoItems(br: Bracket, pat: Text, p: nat)
    requires Sub(pat, p, StartText(br)) && !br.closeFirst && br.items == []
    ensures p + |StartText(br)| == FirstPlace(br, p) && AfterOpening(pat, FirstPlace(br, p))
  {
    var w := StartText(br);
    assert w == if br.negated then ['[' as int, '^' as int] else ['[' as int];
    assert pat[p..p + |w|] == w;
    assert pat[p] == w[0];
    if br.negated {
      assert pat[p + 1] == w[1];
    }
  }

  lemma CutRange(pat: Text, e: nat, first: nat, map8: seq<byte>)
    requires 1 <= first <= e && e + 1 < |pat| && |map8| == 32
    requires pat[e] != ']' as int && pat[e + 1] == '-' as int && Peek(pat, e + 2) != ']' as int
    requires e + 2 < |pat| ==> pat[e] > pat[e + 2]
    requires pat[e] == '-' as int ==> AfterOpening(pat, e)
    ensures BracketLoop(pat, e, first, map8) == Err(Erange)
  {
    TryRange(pat, e, first, map8);
  }

  // ----- groups and escapes -----

  // Expressions with an opening parenthesis between one and the next.
  function OpenGroups(rs: seq<Regex>): Text
    requires rs != []
  {
    if |rs| == 1 then RegexText(rs[0]) else RegexText(rs[0]) + ['(' as int] + OpenGroups(rs[1..])
  }

  lemma OpenGroup(rs: seq<Regex>)
    requires |rs| > 1 && forall k | 0 <= k < |rs| :: WellFormed(rs[k], true)
    ensures Compile(OpenGroups(rs)) == Err(Eparen)
  {
    hide OpenGroups, CompileFrom, WellFormed;
    var pat := OpenGroups(rs);
    assert Sub(pat, 0, pat);
    NeverClosed(rs, pat, 0, Init());
  }

  lemma {:induction false} NeverClosed(rs: seq<Regex>, pat: Text, p: nat, st: CState)
    requires rs != [] && (forall k | 0 <= k < |rs| :: WellFormed(rs[k], true)) && Good(st)
    requires Sub(pat, p, OpenGroups(rs)) && p + |OpenGroups(rs)| == |pat|
    requires st.begalt == |st.code| && Inert(st) && (|rs| > 1 || st.stack != [])
    ensures CompileFrom(pat, p, st) == Err(Eparen)
    decreases |rs|
  {
    hide Good, Sub, CompileFrom, RegexCode, RegexText, Seal, SealTo, Inert, WellFormed, GroupsR, FirstAltEnd, Open;
    var e := p + |RegexText(rs[0])|;
    if |rs| == 1 {
      AtEnd(pat);
      var st1 := ReadRegex(rs[0], pat, p, st);
      EndInside(pat, st1);
    } else {
      var w := ['(' as int];
      assert OpenGroups(rs) == RegexText(rs[0]) + w + OpenGroups(rs[1..]);
      SubParts(pat, p, RegexText(rs[0]) + w, OpenGroups(rs[1..]));
      SubParts(pat, p, RegexText(rs[0]), w);
      SubFirst(pat, e, w);
      var st1 := ReadRegex(rs[0], pat, p, st);
      ReadOpen(pat, e, st1);
      Deeper(st1);
      NeverClosed(rs[1..], pat, e + 1, Open(st1));
    }
  }

  lemma AtEnd(pat: Text)
    ensures Peek(pat, |pat|) == 0 && PlainNext(0)
  {
  }

  lemma EndInside(pat: Text, st: CState)
    requires Good(st) && st.stack != []
    ensures CompileFrom(pat, |pat|, st) == Err(Eparen)
  {
    hide Good;
  }

  lemma Deeper(st: CState)
    requires Good(st)
    ensures Good(Open(st)) && Open(st).stack != []
  {
    hide Good;
  }

  // A backslash at the end.
  lemma NothingEscaped(r: Regex)
    requires WellFormed(r, true)
    ensures Compile(RegexText(r) + ['\\' as int]) == Err(Eescape)
  {
    hide WellFormed, RegexText, Good, CompileFrom;
    var pat, p := RegexText(r) + ['\\' as int], |RegexText(r)|;
    var st := ReadFront(r, ['\\' as int]);
    StepFails(pat, p, st);
  }

  // The letters and signs of the GNU operators, and the digits of back-references.
  const GNU: set<int> := {'w' as int, 'W' as int, '<' as int, '>' as int, 'b' as int, 'B' as int, '`' as int, '\'' as int}

  lemma OutsideIs(c: byte)
    ensures IsOutside(c) <==> c in GNU || '1' as int <= c <= '9' as int
  {
    var g := GNU_OPERATORS;
    assert |g| == 17;
    assert g[0] == 'w' && g[1] == 'W' && g[2] == '<' && g[3] == '>' && g[4] == 'b' && g[5] == 'B' && g[6] == '`' && g[7] == '\'';
    assert forall k | 8 <= k < 17 :: g[k] as int == '1' as int + k - 8;
    if '1' as int <= c <= '9' as int {
      assert g[8 + c - '1' as int] as int == c;
    }
  }

  // An escaped character stands for itself, but for those.
  lemma EscapedCharacter(c: byte)
    ensures Compile(['\\' as int, c]) ==
      if c in GNU || '1' as int <= c <= '9' as int then Err(Outside) else Ok([EXACTN, 1, c])
  {
    var pat: Text := ['\\' as int, c];
    OutsideIs(c);
    hide IsOutside, SPECIALS;
    if !IsOutside(c) {
      var st := Literal(Init(), c, 0);
      assert Step(pat, 0, Init()) == Ok((2, st));
      Finished(pat, st);
      assert Seal(st) == [EXACTN, 1, c];
    }
  }

  // ----- operators with nothing to repeat -----

  // They are passed over.
  lemma NothingToRepeat(ops: seq<RepOp>, r: Regex)
    requires WellFormed(r, true)
    ensures Compile(OpsText(ops) + RegexText(r)) == Ok(RegexCode(r, 0))
  {
    hide WellFormed, RegexText, RegexCode, OpsText, CompileFrom, Seal, SealTo, FirstAltEnd, Sub, Peek, RepRun, PlainNext, Step;
    var pat, p := OpsText(ops) + RegexText(r), |ops|;
    OpsTextLength(ops);
    WholeIs(OpsText(ops), RegexText(r));
    AtEnd(pat);
    RegexStart(r, pat, p);
    if ops != [] {
      RepRunIs(ops, pat, 0);
      SkipOps(ops, pat);
    }
    var st := ReadRegex(r, pat, p, Init());
    InitSeal(r);
    Finished(pat, st);
  }

  lemma RegexStart(r: Regex, pat: Text, p: nat)
    requires WellFormed(r, true) && Sub(pat, p, RegexText(r)) && PlainNext(Peek(pat, p + |RegexText(r)|))
    ensures PlainNext(Peek(pat, p)) && !IsRepChar(Peek(pat, p))
  {
    hide Sub, WellFormedBranch, BranchText, Peek;
    var w := BranchText(r.branch);
    if r.Or? {
      SubParts(pat, p, w + ['|' as int], RegexText(r.rest));
      SubParts(pat, p, w, ['|' as int]);
      SubFirst(pat, p + |w|, ['|' as int]);
    }
    BranchStart(r.branch, pat, p);
  }

  lemma SkipOps(ops: seq<RepOp>, pat: Text)
    requires ops != [] && Sub(pat, 0, OpsText(ops)) && RepRun(pat, 0) == ops && |OpsText(ops)| == |ops|
    ensures CompileFrom(pat, 0, Init()) == CompileFrom(pat, |ops|, Init())
  {
    hide RepRun;
    SubFirst(pat, 0, OpsText(ops));
    assert Step(pat, 0, Init()) == Ok((|ops|, Init()));
  }

  lemma InitSeal(r: Regex)
    ensures SealTo(Init(), FirstAltEnd(r, 0)) + RegexCode(r, 0) == RegexCode(r, 0)
  {
    hide FirstAltEnd, RegexCode;
  }

  lemma Finished(pat: Text, st: CState)
    requires Good(st) && st.stack == []
    ensures CompileFrom(pat, |pat|, st) == Ok(Seal(st))
  {
    hide Good, Seal;
  }

  // ----- braces -----

  // Bounds turned round or too large leave the brace an ordinary character.
  lemma NoInterval(b: Bounds, pat: Text, p: nat, st: CState)
    requires !InOrder(b) && Sub(pat, p, ['{' as int] + BoundsText(b)) && Good(st)
    ensures Step(pat, p, st) == Ok((p + 1, Literal(st, '{' as int, Peek(pat, p + 1))))
  {
    hide Good, Literal, Sub, ReadBounds, BoundsText, InOrder;
    SubParts(pat, p, ['{' as int], BoundsText(b));
    SubFirst(pat, p, ['{' as int]);
    BoundsRead(b, pat, p + 1);
    StepBrace(pat, p, st);
  }

  predicate AllDigits(w: Text) {
    forall k | 0 <= k < |w| :: IsDigit(w[k])
  }

  // What a number read stands for: digits, up to another character or to the end of the pattern.
  lemma {:induction false} NumberWritten(pat: Text, p: nat, c: byte, num: int) returns (ds: Text)
    requires p <= |pat|
    ensures
      var (q, e, v) := GetNumber(pat, p, c, num);
      && AllDigits(ds) && v == After(num, ds)
      && (if q == p + |ds| + 1 then !IsDigit(e) && pat[p..q] == ds + [e]
          else q == p + |ds| == |pat| && pat[p..q] == ds && e == if ds == [] then c else ds[|ds| - 1])
    decreases |pat| - p
  {
    if p == |pat| || !IsDigit(pat[p]) {
      ds := [];
    } else {
      var num' := (if num < 0 then 0 else num) * 10 + pat[p] - '0' as int;
      var more := NumberWritten(pat, p + 1, pat[p], num');
      ds := [pat[p]] + more;
      assert ds[1..] == more;
      var q := GetNumber(pat, p + 1, pat[p], num').0;
      assert pat[p..q] == [pat[p]] + pat[p + 1..q];
    }
  }

  // Where bounds are read, they are written: digits, perhaps a comma and digits again, and the
  // closing brace; and they are in order.
  lemma BoundsWritten(pat: Text, p: nat) returns (ds: Text, es: Text)
    requires p <= |pat| && ReadBounds(pat, p).Some?
    ensures
      var (q, lower, upper) := ReadBounds(pat, p).value;
      && ds != [] && AllDigits(ds) && AllDigits(es) && lower == After(-1, ds) && lower <= upper <= RE_DUP_MAX
      && ((upper == lower && pat[p..q] == ds + ['}' as int])
          || (pat[p..q] == ds + [',' as int] + es + ['}' as int]
              && upper == if es == [] then RE_DUP_MAX else After(-1, es)))
  {
    hide GetNumber;
    ds := NumberWritten(pat, p, '{' as int, -1);
    es := [];
    var (q, c, lower) := GetNumber(pat, p, '{' as int, -1);
    AfterSign(-1, ds);
    if c == ',' as int {
      es := NumberWritten(pat, q, c, -1);
      AfterSign(-1, es);
      var q' := GetNumber(pat, q, c, -1).0;
      assert pat[p..q'] == pat[p..q] + pat[q..q'];
      assert ds + [c] + (es + ['}' as int]) == ds + [c] + es + ['}' as int];
    }
  }

  lemma {:induction false} AfterSign(num: int, ds: Text)
    requires AllDigits(ds)
    ensures if ds == [] then After(num, ds) == num else After(num, ds) >= 0
    decreases |ds|
  {
    if ds != [] {
      AfterSign((if num < 0 then 0 else num) * 10 + ds[0] - '0' as int, ds[1..]);
    }
  }

  // ----- characters that stand for themselves -----

  predicate Plain(w: Text) {
    forall k | 0 <= k < |w| :: w[k] != 0 && w[k] !in SPECIALS
  }

  // A run of plain characters, in the exactn begun.
  lemma {:induction false} ReadPlain(w: Text, run: Text, base: Code, pat: Text, p: nat, st: CState) returns (st': CState)
    requires Plain(w) && Good(st) && Sub(pat, p, w) && PlainNext(Peek(pat, p + |w|))
    requires 0 < |run| && |run| + |w| <= 255 && st.code == base + Flush(run) && st.pending == Some(|base| + 1)
    ensures Good(st') && CompileFrom(pat, p, st) == CompileFrom(pat, p + |w|, st')
    ensures st'.code == base + Flush(run + w) && st'.pending == Some(|base| + 1)
    ensures SamePlace(st, st')
    decreases |w|
  {
    hide *;
    if w == [] {
      NoneLeft(run);
      SamePlaceSelf(st);
      st' := st;
    } else {
      PlainParts(w, run);
      SubParts(pat, p, [w[0]], w[1..]);
      PlainFirst(w[1..], pat, p + 1);
      ReadLiteral(w[0], pat, p, st);
      var st1 := Literal(st, w[0], Peek(pat, p + 1));
      LiteralExtends(st, base, run, w[0], Peek(pat, p + 1));
      st' := ReadPlain(w[1..], run + [w[0]], base, pat, p + 1, st1);
      SamePlaceThrough(st, st1, st');
    }
  }

  lemma NoneLeft(run: Text)
    ensures run + [] == run
  {
  }

  lemma PlainParts(w: Text, run: Text)
    requires Plain(w) && w != []
    ensures w == [w[0]] + w[1..] && Plain(w[1..]) && w[0] != 0 && AtomText(Chr(w[0])) == [w[0]]
    ensures run + [w[0]] + w[1..] == run + w
  {
  }

  lemma PlainFirst(w: Text, pat: Text, p: nat)
    requires Plain(w) && Sub(pat, p, w) && PlainNext(Peek(pat, p + |w|))
    ensures PlainNext(Peek(pat, p))
  {
    if w != [] {
      SubFirst(pat, p, w);
    }
  }

  // A run of plain characters at the beginning of an alternative.
  lemma ReadNewPlain(w: Text, pat: Text, p: nat, st: CState) returns (st': CState)
    requires Plain(w) && 0 < |w| <= 255 && Good(st) && Inert(st) && Sub(pat, p, w) && PlainNext(Peek(pat, p + |w|))
    ensures Good(st') && CompileFrom(pat, p, st) == CompileFrom(pat, p + |w|, st')
    ensures st'.code == st.code + Flush(w) && st'.pending == Some(|st.code| + 1)
    ensures SamePlace(st, st')
  {
    hide *;
    PlainParts(w, []);
    SubParts(pat, p, [w[0]], w[1..]);
    PlainFirst(w[1..], pat, p + 1);
    ReadLiteral(w[0], pat, p, st);
    var st1 := Literal(st, w[0], Peek(pat, p + 1));
    NoRun(st.code);
    LiteralStarts(st, st.code, [], w[0], Peek(pat, p + 1));
    st' := ReadPlain(w[1..], [w[0]], st.code, pat, p + 1, st1);
    SamePlaceThrough(st, st1, st');
  }

  lemma InitIs()
    ensures Inert(Init()) && Init().fixup == None && Init().stack == [] && Init().code == []
    ensures Init().begalt == 0 && Init().regnum == 0
  {
  }

  // One character that is read as itself, in the exactn begun, and plain characters after it.
  lemma ReadOdd(c: byte, v: Text, run: Text, base: Code, pat: Text, p: nat, st: CState) returns (st': CState)
    requires Good(st) && Sub(pat, p, [c] + v) && p + 1 + |v| == |pat| && Plain(v)
    requires 0 < |run| && |run| + 1 + |v| <= 255 && st.code == base + Flush(run) && st.pending == Some(|base| + 1)
    requires p < |pat| && Step(pat, p, st) == Ok((p + 1, Literal(st, c, Peek(pat, p + 1))))
    ensures Good(st') && CompileFrom(pat, p, st) == CompileFrom(pat, |pat|, st')
    ensures st'.code == base + Flush(run + ([c] + v)) && SamePlace(st, st')
  {
    hide *;
    SubParts(pat, p, [c], v);
    AtEnd(pat);
    PlainFirst(v, pat, p + 1);
    OneStep(pat, p, st);
    var st1 := Literal(st, c, Peek(pat, p + 1));
    LiteralExtends(st, base, run, c, Peek(pat, p + 1));
    st' := ReadPlain(v, run + [c], base, pat, p + 1, st1);
    Assoc(run, [c], v);
    SamePlaceThrough(st, st1, st');
  }

  lemma OneStep(pat: Text, p: nat, st: CState)
    requires Good(st) && p < |pat| && Step(pat, p, st).Ok?
    ensures
      var (q, st1) := Step(pat, p, st).value;
      CompileFrom(pat, p, st) == CompileFrom(pat, q, st1)
  {
    hide Step, Good;
  }

  // Where an expression without alternatives ends.
  lemma EndsPlain(pat: Text, st: CState)
    requires Good(st) && SamePlace(Init(), st)
    ensures CompileFrom(pat, |pat|, st) == Ok(st.code)
  {
    hide Good;
  }

  lemma CompileIs(pat: Text)
    ensures Compile(pat) == CompileFrom(pat, 0, Init())
  {
    hide CompileFrom;
  }

  lemma NoBase(w: Code)
    ensures [] + w == w
  {
  }

  lemma BoundsPlain(b: Bounds)
    ensures Plain(BoundsText(b))
  {
    var w := BoundsText(b);
    hide Decimal;
    forall k | 0 <= k < |w|
      ensures w[k] != 0 && w[k] !in SPECIALS
    {
      assert IsDigit(w[k]) || w[k] == ',' as int || w[k] == '}' as int;
    }
  }

  lemma NextIsPlain(w: Text, c: byte)
    requires w != [] && w[0] == c && (c == ')' as int || c == '|' as int)
    ensures PlainNext(w[0])
  {
  }

  // The code before what stands for itself: a text, perhaps none.
  lemma ReadFirst(u: Text, pat: Text) returns (st: CState)
    requires Plain(u) && |u| <= 255 && Sub(pat, 0, u) && PlainNext(Peek(pat, |u|))
    ensures Good(st) && CompileFrom(pat, 0, Init()) == CompileFrom(pat, |u|, st)
    ensures st.code == Flush(u) && SamePlace(Init(), st) && (u != [] ==> st.pending == Some(1))
  {
    hide *;
    InitIs();
    if u == [] {
      SamePlaceSelf(Init());
      NoRun([]);
      st := Init();
    } else {
      st := ReadNewPlain(u, pat, 0, Init());
    }
    NoBase(Flush(u));
  }

  lemma BetweenPlain(c: byte)
    requires Plain([c])
    ensures PlainNext(c) && !PlainNext('{' as int)
  {
    assert [c][0] == c;
  }

  // What begins as an interval and is none stands for itself; the character before it begins an
  // exactn, and the brace goes on with it.
  lemma BraceStands(u: Text, c: byte, b: Bounds)
    requires Plain(u) && Plain([c]) && !InOrder(b) && |u| <= 255 && 2 + |BoundsText(b)| <= 255
    ensures
      var w := ['{' as int] + BoundsText(b);
      Compile(u + ([c] + w)) == Ok(Flush(u) + Flush([c] + w))
  {
    hide *;
    var w := ['{' as int] + BoundsText(b);
    var pat, p := u + ([c] + w), |u|;
    WholeIs(u, [c] + w);
    SubParts(pat, p, [c], w);
    SubFirst(pat, p + 1, w);
    PlainParts([c], []);
    SubFirst(pat, p, [c] + w);
    BetweenPlain(c);
    BoundsPlain(b);
    CompileIs(pat);
    var st := ReadFirst(u, pat);
    ReadLiteral(c, pat, p, st);
    var st1 := Literal(st, c, Peek(pat, p + 1));
    FreshLiteral(st, c, '{' as int);
    NoInterval(b, pat, p + 1, st1);
    var st2 := ReadOdd('{' as int, BoundsText(b), [c], Flush(u), pat, p + 1, st1);
    SamePlaceThrough(Init(), st, st1);
    SamePlaceThrough(Init(), st1, st2);
    EndsPlain(pat, st2);
  }

  lemma StrayStep(pat: Text, p: nat, st: CState)
    requires Good(st) && p < |pat| && pat[p] == ')' as int && st.stack == [] && st.fixup == None
    ensures Step(pat, p, st) == Ok((p + 1, Literal(st, ')' as int, Peek(pat, p + 1))))
  {
    hide Literal, Good;
  }

  lemma SamePlaceIs(st: CState, st1: CState)
    requires SamePlace(st, st1)
    ensures st1.stack == st.stack && st1.fixup == st.fixup && st1.begalt == st.begalt
  {
  }

  // An unmatched parenthesis is a character like any other.
  lemma StrayParenthesis(u: Text, v: Text)
    requires Plain(u) && Plain(v) && u != [] && |u| + 1 + |v| <= 255
    ensures
      var w := u + ([')' as int] + v);
      Compile(w) == Ok(Flush(w))
  {
    hide *;
    var rest := [')' as int] + v;
    var pat, p := u + rest, |u|;
    WholeIs(u, rest);
    NextIsPlain(rest, ')' as int);
    CompileIs(pat);
    InitIs();
    var st := ReadFirst(u, pat);
    SamePlaceIs(Init(), st);
    SubFirst(pat, p, rest);
    StrayStep(pat, p, st);
    NoBase(Flush(u));
    var st1 := ReadOdd(')' as int, v, u, [], pat, p, st);
    SamePlaceThrough(Init(), st, st1);
    NoBase(Flush(pat));
    EndsPlain(pat, st1);
  }

  // The code up to the stored jump, when one alternative stands before it.
  function Head(first: Code): Code {
    Op1(ON_FAILURE_JUMP, |first| + 3) + first
  }

  lemma SecondBegins(st: CState)
    requires Good(st) && st.begalt == 0 && st.fixup == None
    ensures Alternative(st).code == Head(st.code) + [0, 0, 0] && Alternative(st).fixup == Some(|Head(st.code)|)
  {
    hide Op1, StackFits;
    Insertion([], st.code, ON_FAILURE_JUMP, |st.code| + 3);
    NoBase(st.code);
    NoBase(Op1(ON_FAILURE_JUMP, |st.code| + 3) + st.code);
  }

  lemma StoredAt(head: Code, hole: Code, tail: Code, op: byte, arg: int)
    requires |hole| == 3
    ensures StoreOp1(head + hole + tail, op, |head|, arg) == head + Op1(op, arg) + tail
  {
    hide *;
    StoreInside(head + hole, tail, op, |head|, arg);
    StoreAtEnd(head, hole, op, arg);
  }

  // At the stray parenthesis the stored jump is stored, and a failure point is pushed.
  lemma StrayCloses(st: CState, head: Code, w: Text, next: byte)
    requires Good(st) && st.stack == [] && st.fixup == Some(|head|) && 0 < |w| <= 255
    requires st.code == head + [0, 0, 0] + Flush(w) && st.pending == Some(|head| + 4)
    ensures
      var st' := Close(st, next);
      var base := head + Op1(JUMP_PAST_ALT, |Flush(w)|) + Flush(w) + [PUSH_DUMMY_FAILURE];
      && Good(st') && st'.code == base + Flush([')' as int]) && st'.pending == Some(|base| + 1) && SamePlace(st, st')
  {
    hide Op1, StoreOp1, StackFits;
    var jump := Op1(JUMP_PAST_ALT, |Flush(w)|);
    var base := head + jump + Flush(w) + [PUSH_DUMMY_FAILURE];
    StoredAt(head, [0, 0, 0], Flush(w), JUMP_PAST_ALT, |Flush(w)|);
    assert base[|head| + 4] == Flush(w)[1] == |w|;
  }

  lemma StraySealed(st: CState, head: Code, hole: Code, tail: Code)
    requires Good(st) && |hole| == 3 && st.code == head + hole + tail && st.fixup == Some(|head|)
    ensures Seal(st) == head + Op1(JUMP_PAST_ALT, |tail|) + tail
  {
    hide Op1, StoreOp1, Good;
    StoredAt(head, hole, tail, JUMP_PAST_ALT, |tail|);
  }

  // After alternatives it stands after the dummy failure point, and the stored jump is stored once
  // more, to lead past it.
  lemma StrayAfterAlternatives(u: Text, w: Text, v: Text)
    requires Plain(u) && Plain(w) && Plain(v) && u != [] && w != [] && |u| <= 255 && |w| <= 255 && 1 + |v| <= 255
    ensures
      var odd := [')' as int] + v;
      var tail := Flush(w) + [PUSH_DUMMY_FAILURE] + Flush(odd);
      Compile(u + (['|' as int] + (w + odd))) == Ok(Head(Flush(u)) + Op1(JUMP_PAST_ALT, |tail|) + tail)
  {
    hide *;
    var odd := [')' as int] + v;
    var rest := ['|' as int] + (w + odd);
    var pat, p, e := u + rest, |u|, |u| + 1 + |w|;
    WholeIs(u, rest);
    NextIsPlain(rest, '|' as int);
    NextIsPlain(odd, ')' as int);
    SubParts(pat, p, ['|' as int], w + odd);
    SubParts(pat, p + 1, w, odd);
    SubFirst(pat, p, rest);
    SubFirst(pat, e, odd);
    SubParts(pat, e, [')' as int], v);
    AtEnd(pat);
    CompileIs(pat);
    InitIs();
    var st := ReadFirst(u, pat);
    SamePlaceIs(Init(), st);
    ReadBar(pat, p, st);
    SecondBegins(st);
    var head := Head(Flush(u));
    var st1 := ReadNewPlain(w, pat, p + 1, Alternative(st));
    SamePlaceIs(Alternative(st), st1);
    ReadClose(pat, e, st1);
    StrayCloses(st1, head, w, Peek(pat, e + 1));
    var st2 := Close(st1, Peek(pat, e + 1));
    SamePlaceIs(st1, st2);
    var jump := Op1(JUMP_PAST_ALT, |Flush(w)|);
    var base := head + jump + Flush(w) + [PUSH_DUMMY_FAILURE];
    var st3 := ReadPlain(v, [')' as int], base, pat, e + 1, st2);
    SamePlaceIs(st2, st3);
    Tail(head + jump, Flush(w), [PUSH_DUMMY_FAILURE], Flush(odd));
    StraySealed(st3, head, jump, Flush(w) + [PUSH_DUMMY_FAILURE] + Flush(odd));
    Finished(pat, st3);
  }

  lemma Tail(a: Code, b: Code, c: Code, d: Code)
    ensures a + b + c + d == a + (b + c + d)
  {
  }

  // ----- examples, byte by byte -----

  // Group 255 is the last with a register; one more leaves nothing.
  lemma LastRegister()
    ensures AtomCode(Group(Last(Empty)), 254) == [6, 255, 0, 7, 255, 0] && AtomCode(Group(Last(Empty)), 255) == []
  {
    assert RegexCode(Last(Empty), 255) == [] && RegexCode(Last(Empty), 256) == [];
  }

  const A: byte := 'a' as int
  const B: byte := 'b' as int
  const BRACE: byte := '{' as int
  const UNBRACE: byte := '}' as int

  // `ab{2}' repeats its last character: an exactn, two set_number_at, a succeed_n, the exactn that is
  // repeated, and a jump_n.
  lemma LastRepeated()
    ensures Compile([A] + [B, BRACE, '2' as int, UNBRACE])
         == Ok([2, 1, A] + [23, 18, 0, 1, 0, 23, 5, 0, 2, 0, 21, 10, 0, 2, 0, 2, 1, B, 22, 245, 255, 1, 0])
  {
    var two := Bounded(Chr(B), [Times(Exactly(2))]);
    var rest := Then(two, Empty);
    var b := Then(Single(Chr(A)), rest);
    TwoIs();
    LetterIs(A);
    hide *;
    PieceLast(two, [A], 0);
    LetterFirst(A, rest);
    RegexIs(b);
    CompilesToCode(Last(b));
    OneFlush(A);
  }

  lemma OneFlush(c: byte)
    ensures Flush([c]) == [EXACTN, 1, c]
  {
  }

  lemma LetterFirst(c: byte, rest: Branch)
    requires c == A || c == B
    ensures
      var b := Then(Single(Chr(c)), rest);
      && BranchText(b) == [c] + BranchText(rest) && BranchCode(b, [], 0) == BranchCode(rest, [c], 0)
      && (WellFormedBranch(rest, true) ==> WellFormedBranch(b, true))
  {
    LetterIs(c);
    hide PieceText, WellFormedPiece;
    NoBase(BranchCode(rest, [c], 0));
  }

  lemma PieceLast(q: Piece, run: Text, reg: nat)
    requires !IsLiteral(q) && |run| <= 255
    ensures
      var b := Then(q, Empty);
      && BranchText(b) == PieceText(q) && BranchCode(b, run, reg) == Flush(run) + PieceCode(q, reg)
      && (WellFormedPiece(q, true) ==> WellFormedBranch(b, true))
  {
    hide PieceText, PieceCode, WellFormedPiece;
    NoRun(Flush(run) + PieceCode(q, reg));
    assert PieceText(q) + [] == PieceText(q);
  }

  lemma RegexIs(b: Branch)
    ensures RegexText(Last(b)) == BranchText(b) && RegexCode(Last(b), 0) == BranchCode(b, [], 0)
    ensures WellFormedBranch(b, true) ==> WellFormed(Last(b), true)
  {
  }

  lemma LetterIs(c: byte)
    requires c == A || c == B
    ensures PieceText(Single(Chr(c))) == [c] && WellFormedPiece(Single(Chr(c)), true)
  {
  }

  lemma TwoIs()
    ensures
      var two := Bounded(Chr(B), [Times(Exactly(2))]);
      && PieceText(two) == [B, BRACE, '2' as int, UNBRACE] && WellFormedPiece(two, true)
      && PieceCode(two, 0) ==
        [SET_NUMBER_AT, 18, 0, 1, 0, SET_NUMBER_AT, 5, 0, 2, 0, SUCCEED_N, 10, 0, 2, 0,
         EXACTN, 1, B, JUMP_N, 245, 255, 1, 0]
  {
    var post, X := Times(Exactly(2)), [EXACTN, 1, B];
    assert [post][1..] == [];
    assert Decimal(2) == ['2' as int];
    assert PostText(post) == [BRACE, '2' as int, UNBRACE];
    assert PostsText([post]) == PostText(post) + PostsText([]);
    assert PostsCode(X, [post]) == IntervalCode(X, 2, 2);
    hide IntervalCode;
    TwiceIs(X);
  }

  lemma TwiceIs(X: Code)
    requires X == [EXACTN, 1, B]
    ensures IntervalCode(X, 2, 2) ==
      [SET_NUMBER_AT, 18, 0, 1, 0, SET_NUMBER_AT, 5, 0, 2, 0, SUCCEED_N, 10, 0, 2, 0,
       EXACTN, 1, B, JUMP_N, 245, 255, 1, 0]
  {
    assert Low(-11) == 245 && High(-11) == 255;
  }
}
