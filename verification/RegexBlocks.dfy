/**
 Well-formed code. Scanned from its first byte, the code of a tree falls into instructions,
 and every jump lands on the start of one of them, or on the end of the code. Every
 backward jump closes a loop, which is entered only at its body, from the jump that
 heads it or from the dummy jump of a `+'.
 */
module RegexBlocks {
  import opened RegexBytes
  import opened RegexSyntax
  import opened RegexGen
  import opened RegexNfa
  import opened RegexMeaning

  // Reading whole instructions from s on comes by x.
  predicate Scan(P: Code, s: int, x: int)
    decreases |P| - s
  {
    s == x || (0 <= s < |P| && InsLen(P, s) > 0 && Scan(P, s + InsLen(P, s), x))
  }

  // Where the instruction at a may lead.
  function Edges(P: Code, a: nat): set<int>
    requires a < |P|
  {
    var len := InsLen(P, a);
    if len == 0 then {}
    else if P[a] == ON_FAILURE_JUMP then {a + 3, Target(P, a)}
    else if IsJump(P[a]) then {Target(P, a)}
    else {a + len}
  }

  // Inside the block from s to e, a start of an instruction.
  predicate StartIn(P: Code, s: nat, e: nat, a: nat) {
    s <= a < e <= |P| && Scan(P, s, a) && InsLen(P, a) > 0
  }

  // a ends a loop in the block.
  predicate EndsLoop(P: Code, s: nat, e: nat, a: nat) {
    StartIn(P, s, e, a) && IsBack(P[a])
  }

  // Everything the instruction at a leads to is the start of an instruction, or the end; only
  // the jumps that close loops go backwards.
  ghost predicate Closed(P: Code, s: nat, e: nat, a: nat)
    requires StartIn(P, s, e, a)
  {
    forall x | x in Edges(P, a) :: s <= x <= e && Scan(P, s, x) && (IsBack(P[a]) || a < x)
  }

  // The loop that m ends: its head, and where its body starts.
  function Head(P: Code, m: nat): int {
    if m + 3 <= |P| then Target(P, m) else 0
  }

  ghost predicate LoopShape(P: Code, s: nat, e: nat, m: nat)
    requires EndsLoop(P, s, e, m)
  {
    var l := Head(P, m);
    && s <= l && l + 3 <= m && Scan(P, s, l)
    && P[l] == ON_FAILURE_JUMP && Target(P, l) == m + 3
  }

  // A loop is entered at its body only, by its head or by a dummy jump.
  ghost predicate Entered(P: Code, s: nat, e: nat, m: nat)
    requires EndsLoop(P, s, e, m)
  {
    var b := Head(P, m) + 3;
    forall a: nat, x | StartIn(P, s, e, a) && x in Edges(P, a) && b <= x <= m ::
      b <= a <= m || (x == b && (a == b - 3 || P[a] == DUMMY_FAILURE_JUMP))
  }

  ghost predicate Block(P: Code, s: nat, e: nat) {
    && s <= e <= |P| && Scan(P, s, e)
    && (forall a: nat | StartIn(P, s, e, a) :: Closed(P, s, e, a))
    && (forall m: nat | EndsLoop(P, s, e, m) :: LoopShape(P, s, e, m) && Entered(P, s, e, m))
  }

  ghost predicate WellFormedCode(P: Code) {
    Block(P, 0, |P|)
  }

  // x is in no loop of the block.
  ghost predicate Outer(P: Code, s: nat, e: nat, x: nat) {
    forall m: nat | EndsLoop(P, s, e, m) :: !(Head(P, m) + 3 <= x <= m)
  }

  // ----- scanning -----

  lemma {:induction false} ScanUp(P: Code, s: int, x: int)
    requires Scan(P, s, x)
    ensures s <= x && (s < |P| ==> x <= |P|)
    decreases |P| - s
  {
    if s != x {
      ScanUp(P, s + InsLen(P, s), x);
    }
  }

  lemma {:induction false} ScanThrough(P: Code, s: int, m: int, x: int)
    requires Scan(P, s, m) && Scan(P, m, x)
    ensures Scan(P, s, x)
    decreases |P| - s
  {
    if s != m {
      ScanThrough(P, s + InsLen(P, s), m, x);
    }
  }

  // Scanning passes each address once: what lies beyond a start is reached from it.
  lemma {:induction false} ScanOn(P: Code, s: int, m: int, x: int)
    requires Scan(P, s, m) && Scan(P, s, x) && m <= x
    ensures Scan(P, m, x)
    decreases |P| - s
  {
    if s != m {
      ScanUp(P, s + InsLen(P, s), m);
      ScanOn(P, s + InsLen(P, s), m, x);
    }
  }

  // No start of an instruction lies inside another instruction.
  lemma ScanNext(P: Code, s: int, a: int, x: int)
    requires Scan(P, s, a) && Scan(P, s, x) && a < x && 0 <= a < |P|
    ensures InsLen(P, a) > 0 && a + InsLen(P, a) <= x && Scan(P, a + InsLen(P, a), x)
  {
    ScanOn(P, s, a, x);
    ScanUp(P, a + InsLen(P, a), x);
  }

  lemma ScanOne(P: Code, s: nat)
    requires s < |P| && InsLen(P, s) > 0
    ensures Scan(P, s, s + InsLen(P, s))
  {
    assert Scan(P, s + InsLen(P, s), s + InsLen(P, s));
  }

  lemma ScanStep(P: Code, s: int, a: int)
    requires Scan(P, s, a) && 0 <= a < |P| && InsLen(P, a) > 0
    ensures Scan(P, s, a + InsLen(P, a))
  {
    assert Scan(P, a, a + InsLen(P, a));
    ScanThrough(P, s, a, a + InsLen(P, a));
  }

  // ----- blocks side by side -----

  lemma StartSplit(P: Code, s: nat, m: nat, e: nat, a: nat)
    requires s <= m <= e && Scan(P, s, m) && StartIn(P, s, e, a)
    ensures if a < m then StartIn(P, s, m, a) else StartIn(P, m, e, a)
  {
    if m <= a {
      ScanOn(P, s, m, a);
    }
  }

  // A loop of an inner block is a loop of an outer one, if the rest of the outer one does not
  // lead into it, except by a dummy jump to its body.
  lemma WidenLoop(P: Code, s: nat, e: nat, s': nat, e': nat, m: nat)
    requires s' <= s <= e <= e' <= |P| && Scan(P, s', s) && Scan(P, s, e)
    requires EndsLoop(P, s, e, m) && LoopShape(P, s, e, m) && Entered(P, s, e, m)
    requires forall a: nat, x | StartIn(P, s', e', a) && !(s <= a < e) && x in Edges(P, a) && Head(P, m) + 3 <= x <= m ::
      x == Head(P, m) + 3 && P[a] == DUMMY_FAILURE_JUMP
    ensures EndsLoop(P, s', e', m) && LoopShape(P, s', e', m) && Entered(P, s', e', m)
  {
    hide Edges, InsLen;
    ScanThrough(P, s', s, m);
    ScanThrough(P, s', s, Head(P, m));
    var b := Head(P, m) + 3;
    forall a: nat, x | StartIn(P, s', e', a) && x in Edges(P, a) && b <= x <= m
      ensures b <= a <= m || (x == b && (a == b - 3 || P[a] == DUMMY_FAILURE_JUMP))
    {
      if s <= a < e {
        ScanOn(P, s', s, a);
        assert StartIn(P, s, e, a);
      }
    }
  }

  lemma EmptyBlock(P: Code, s: nat)
    requires s <= |P|
    ensures Block(P, s, s)
  {
  }

  lemma OneBlock(P: Code, s: nat)
    requires s < |P| && InsLen(P, s) > 0 && !IsJump(P[s])
    ensures Block(P, s, s + InsLen(P, s))
  {
    var e := s + InsLen(P, s);
    forall a: nat | StartIn(P, s, e, a)
      ensures a == s
    {
      if a != s {
        ScanUp(P, e, a);
      }
    }
    assert Scan(P, e, e);
  }

  lemma JoinBlocks(P: Code, s: nat, m: nat, e: nat)
    requires Block(P, s, m) && Block(P, m, e)
    ensures Block(P, s, e)
  {
    hide Edges, InsLen, Entered, LoopShape;
    ScanThrough(P, s, m, e);
    forall a: nat | StartIn(P, s, e, a)
      ensures Closed(P, s, e, a)
    {
      StartSplit(P, s, m, e, a);
      JoinClosed(P, s, m, e, a);
    }
    forall k: nat | EndsLoop(P, s, e, k)
      ensures LoopShape(P, s, e, k) && Entered(P, s, e, k)
    {
      StartSplit(P, s, m, e, k);
      if k < m {
        JoinLoopLeft(P, s, m, e, k);
      } else {
        JoinLoopRight(P, s, m, e, k);
      }
    }
  }

  lemma JoinClosed(P: Code, s: nat, m: nat, e: nat, a: nat)
    requires s <= m <= e && Scan(P, s, m) && StartIn(P, s, e, a)
    requires (StartIn(P, s, m, a) && Closed(P, s, m, a)) || (StartIn(P, m, e, a) && Closed(P, m, e, a))
    ensures Closed(P, s, e, a)
  {
    hide Edges, InsLen;
    forall x | x in Edges(P, a)
      ensures s <= x <= e && Scan(P, s, x) && (IsBack(P[a]) || a < x)
    {
      if !(StartIn(P, s, m, a) && Closed(P, s, m, a)) {
        ScanThrough(P, s, m, x);
      }
    }
  }

  lemma JoinLoopLeft(P: Code, s: nat, m: nat, e: nat, k: nat)
    requires Block(P, s, m) && Block(P, m, e) && EndsLoop(P, s, m, k)
    ensures EndsLoop(P, s, e, k) && LoopShape(P, s, e, k) && Entered(P, s, e, k)
  {
    hide Edges, InsLen, Entered;
    forall a: nat, x | StartIn(P, s, e, a) && !(s <= a < m) && x in Edges(P, a)
      ensures !(Head(P, k) + 3 <= x <= k)
    {
      StartSplit(P, s, m, e, a);
      assert Closed(P, m, e, a);
    }
    WidenLoop(P, s, m, s, e, k);
  }

  lemma JoinLoopRight(P: Code, s: nat, m: nat, e: nat, k: nat)
    requires Block(P, s, m) && Block(P, m, e) && EndsLoop(P, m, e, k)
    ensures EndsLoop(P, s, e, k) && LoopShape(P, s, e, k) && Entered(P, s, e, k)
  {
    hide Edges, InsLen, Entered;
    assert LoopShape(P, m, e, k);
    forall a: nat, x | StartIn(P, s, e, a) && !(m <= a < e) && x in Edges(P, a)
      ensures !(Head(P, k) + 3 <= x <= k)
    {
      StartSplit(P, s, m, e, a);
      assert Closed(P, s, m, a);
    }
    WidenLoop(P, m, e, s, e, k);
  }

  // ----- a jump over a block, and a loop around one -----

  lemma StartSplit3(P: Code, s: nat, b: nat, m: nat, e: nat, a: nat)
    requires s <= b <= m <= e && Scan(P, s, b) && Scan(P, b, m) && StartIn(P, s, e, a)
    ensures a < b ==> StartIn(P, s, b, a)
    ensures b <= a < m ==> StartIn(P, b, m, a)
    ensures m <= a ==> StartIn(P, m, e, a)
  {
    ScanThrough(P, s, b, m);
    StartSplit(P, s, m, e, a);
    if a < m {
      StartSplit(P, s, b, m, a);
    }
  }

  lemma OneStart(P: Code, s: nat, a: nat)
    requires s < |P| && InsLen(P, s) > 0 && StartIn(P, s, s + InsLen(P, s), a)
    ensures a == s
  {
    if a != s {
      ScanUp(P, s + InsLen(P, s), a);
    }
  }

  // A failure jump over a block.
  lemma OptBlock(P: Code, l: nat, b: nat, e: nat)
    requires b == l + 3 && Block(P, b, e)
    requires P[l] == ON_FAILURE_JUMP && Target(P, l) == e
    ensures Block(P, l, e)
    ensures forall k: nat | EndsLoop(P, l, e, k) :: EndsLoop(P, b, e, k)
  {
    ScanOne(P, l);
    assert Edges(P, l) == {b, e};
    ScanThrough(P, l, b, e);
    OptClosed(P, l, e);
    forall k: nat | EndsLoop(P, l, e, k)
      ensures EndsLoop(P, b, e, k) && LoopShape(P, l, e, k) && Entered(P, l, e, k)
    {
      hide Edges, InsLen, Entered, Target;
      StartSplit(P, l, b, e, k);
      assert EndsLoop(P, b, e, k) by {
        if k < b {
          OneStart(P, l, k);
        }
      }
      assert LoopShape(P, b, e, k);
      forall a: nat, x | StartIn(P, l, e, a) && !(b <= a < e) && x in Edges(P, a)
        ensures !(Head(P, k) + 3 <= x <= k)
      {
        StartSplit(P, l, b, e, a);
        OneStart(P, l, a);
      }
      WidenLoop(P, b, e, l, e, k);
    }
  }

  lemma OptClosed(P: Code, l: nat, e: nat)
    requires l + 3 <= e && Block(P, l + 3, e)
    requires P[l] == ON_FAILURE_JUMP && Target(P, l) == e && InsLen(P, l) == 3
    requires Edges(P, l) == {l + 3, e} && Scan(P, l, l + 3) && Scan(P, l, e)
    ensures forall a: nat | StartIn(P, l, e, a) :: Closed(P, l, e, a)
  {
    hide Edges, InsLen, Entered, LoopShape, Target;
    var b := l + 3;
    forall a: nat | StartIn(P, l, e, a)
      ensures Closed(P, l, e, a)
    {
      StartSplit(P, l, b, e, a);
      if a < b {
        OneStart(P, l, a);
      } else {
        JoinClosed(P, l, b, e, a);
      }
    }
  }

  // A failure jump over a block and the jump that repeats it.
  lemma LoopBlock(P: Code, l: nat, b: nat, m: nat, e: nat)
    requires b == l + 3 && e == m + 3 <= |P| && Block(P, b, m)
    requires P[l] == ON_FAILURE_JUMP && Target(P, l) == e
    requires IsBack(P[m]) && Target(P, m) == l
    ensures Block(P, l, e)
    ensures forall k: nat | EndsLoop(P, l, e, k) :: k == m || EndsLoop(P, b, m, k)
  {
    ScanOne(P, l);
    ScanOne(P, m);
    assert Edges(P, l) == {b, e} && Edges(P, m) == {l};
    assert Head(P, m) == l;
    ScanThrough(P, l, b, m);
    ScanThrough(P, l, m, e);
    LoopClosed(P, l, b, m, e);
    forall k: nat | EndsLoop(P, l, e, k)
      ensures k == m || EndsLoop(P, b, m, k)
      ensures LoopShape(P, l, e, k) && Entered(P, l, e, k)
    {
      hide Edges, InsLen, Target;
      StartSplit3(P, l, b, m, e, k);
      if k < b {
        OneStart(P, l, k);
      } else if m <= k {
        OneStart(P, m, k);
        LoopOwn(P, l, m);
      } else {
        LoopInner(P, l, m, k);
      }
    }
  }

  lemma LoopClosed(P: Code, l: nat, b: nat, m: nat, e: nat)
    requires b == l + 3 && e == m + 3 <= |P| && Block(P, b, m)
    requires InsLen(P, l) == 3 && InsLen(P, m) == 3 && IsBack(P[m])
    requires Edges(P, l) == {b as int, e as int} && Edges(P, m) == {l as int}
    requires Scan(P, l, b) && Scan(P, l, m) && Scan(P, l, e)
    ensures forall a: nat | StartIn(P, l, e, a) :: Closed(P, l, e, a)
  {
    hide Edges, InsLen, Entered, LoopShape;
    forall a: nat | StartIn(P, l, e, a)
      ensures Closed(P, l, e, a)
    {
      StartSplit3(P, l, b, m, e, a);
      if a < b {
        OneStart(P, l, a);
      } else if m <= a {
        OneStart(P, m, a);
      } else {
        JoinClosed(P, l, b, m, a);
      }
    }
  }

  // The loop itself.
  lemma LoopOwn(P: Code, l: nat, m: nat)
    requires l + 3 <= m && Block(P, l + 3, m) && m + 3 <= |P|
    requires InsLen(P, l) == 3 && InsLen(P, m) == 3 && IsBack(P[m]) && Head(P, m) == l
    requires P[l] == ON_FAILURE_JUMP && Target(P, l) == m + 3
    requires Edges(P, l) == {l + 3, m + 3} && Edges(P, m) == {l as int}
    requires Scan(P, l, l + 3) && Scan(P, l, m)
    ensures EndsLoop(P, l, m + 3, m) && LoopShape(P, l, m + 3, m) && Entered(P, l, m + 3, m)
  {
    hide Edges, InsLen, Target;
    var b := l + 3;
    var e := m + 3;
    forall a: nat, x | StartIn(P, l, e, a) && x in Edges(P, a) && b <= x <= m
      ensures b <= a <= m || (x == b && (a == b - 3 || P[a] == DUMMY_FAILURE_JUMP))
    {
      StartSplit3(P, l, b, m, e, a);
      if a < b {
        OneStart(P, l, a);
      } else if m <= a {
        OneStart(P, m, a);
      }
    }
  }

  // The loops of its body.
  lemma LoopInner(P: Code, l: nat, m: nat, k: nat)
    requires l + 3 <= m && Block(P, l + 3, m) && m + 3 <= |P|
    requires InsLen(P, l) == 3 && InsLen(P, m) == 3
    requires Edges(P, l) == {l + 3, m + 3} && Edges(P, m) == {l as int}
    requires Scan(P, l, l + 3) && Scan(P, l, m) && EndsLoop(P, l + 3, m, k)
    ensures EndsLoop(P, l, m + 3, k) && LoopShape(P, l, m + 3, k) && Entered(P, l, m + 3, k)
  {
    hide Edges, InsLen, Entered, Target;
    var b := l + 3;
    var e := m + 3;
    assert LoopShape(P, b, m, k);
    forall a: nat, x | StartIn(P, l, e, a) && !(b <= a < m) && x in Edges(P, a)
      ensures !(Head(P, k) + 3 <= x <= k)
    {
      StartSplit3(P, l, b, m, e, a);
      if a < b {
        OneStart(P, l, a);
      } else if m <= a {
        OneStart(P, m, a);
      }
    }
    WidenLoop(P, b, m, l, e, k);
  }

  // The dummy jump of a `+' before its loop, over the head of the loop.
  lemma PlusBlock(P: Code, d: nat, l: nat, e: nat, m: nat)
    requires l == d + 3 && l + 3 <= e && Block(P, l, e)
    requires P[d] == DUMMY_FAILURE_JUMP && Target(P, d) == d + 6
    requires EndsLoop(P, l, e, m) && Head(P, m) == l
    requires forall k: nat | EndsLoop(P, l, e, k) :: k == m || l < Head(P, k)
    ensures Block(P, d, e)
    ensures forall k: nat | EndsLoop(P, d, e, k) :: EndsLoop(P, l, e, k)
  {
    ScanOne(P, d);
    assert Edges(P, d) == {d + 6};
    ScanThrough(P, d, l, e);
    assert Scan(P, l, d + 6) by {
      assert LoopShape(P, l, e, m);
    }
    ScanThrough(P, d, l, d + 6);
    forall a: nat | StartIn(P, d, e, a)
      ensures Closed(P, d, e, a)
    {
      hide Edges, InsLen, Target, Entered, LoopShape;
      StartSplit(P, d, l, e, a);
      if a < l {
        OneStart(P, d, a);
      } else {
        JoinClosed(P, d, l, e, a);
      }
    }
    forall k: nat | EndsLoop(P, d, e, k)
      ensures EndsLoop(P, l, e, k) && LoopShape(P, d, e, k) && Entered(P, d, e, k)
    {
      hide Edges, InsLen, Target, Entered;
      StartSplit(P, d, l, e, k);
      if k < l {
        OneStart(P, d, k);
      }
      assert LoopShape(P, l, e, k);
      forall a: nat, x | StartIn(P, d, e, a) && !(l <= a < e) && x in Edges(P, a) && Head(P, k) + 3 <= x <= k
        ensures x == Head(P, k) + 3 && P[a] == DUMMY_FAILURE_JUMP
      {
        StartSplit(P, d, l, e, a);
        OneStart(P, d, a);
      }
      WidenLoop(P, l, e, d, e, k);
    }
  }

  // ----- alternatives -----

  // The first alternative, the jump past the rest, and the rest. That jump may land anywhere in
  // the rest that is in none of its loops.
  lemma OrBlock(P: Code, s: nat, b: nat, f: nat, m: nat, e: nat)
    requires b == s + 3 && m == f + 3 && Block(P, b, f) && Block(P, m, e)
    requires P[s] == ON_FAILURE_JUMP && Target(P, s) == m
    requires P[f] == JUMP_PAST_ALT && m <= Target(P, f) <= e
    requires Scan(P, m, Target(P, f)) && Outer(P, m, e, Target(P, f))
    ensures Block(P, s, e)
    ensures forall k: nat | EndsLoop(P, s, e, k) :: EndsLoop(P, b, f, k) || EndsLoop(P, m, e, k)
  {
    var x := Target(P, f);
    ScanOne(P, s);
    ScanOne(P, f);
    assert Edges(P, s) == {b, m} && Edges(P, f) == {x};
    ScanThrough(P, s, b, f);
    ScanThrough(P, s, f, m);
    ScanThrough(P, s, m, e);
    ScanThrough(P, s, m, x);
    OrClosed(P, s, b, f, m, e, x);
    forall k: nat | EndsLoop(P, s, e, k)
      ensures EndsLoop(P, b, f, k) || EndsLoop(P, m, e, k)
      ensures LoopShape(P, s, e, k) && Entered(P, s, e, k)
    {
      hide Edges, InsLen, Target, Outer, LoopShape, Entered;
      StartSplit4(P, s, b, f, m, e, k);
      if k < b {
        OneStart(P, s, k);
      } else if k < f {
        OrLoop(P, s, b, f, m, e, x, k);
      } else if k < m {
        OneStart(P, f, k);
      } else {
        OrLoop(P, s, b, f, m, e, x, k);
      }
    }
  }

  lemma StartSplit4(P: Code, s: nat, b: nat, f: nat, m: nat, e: nat, a: nat)
    requires s <= b <= f <= m <= e && Scan(P, s, b) && Scan(P, b, f) && Scan(P, f, m) && StartIn(P, s, e, a)
    ensures a < b ==> StartIn(P, s, b, a)
    ensures b <= a < f ==> StartIn(P, b, f, a)
    ensures f <= a < m ==> StartIn(P, f, m, a)
    ensures m <= a ==> StartIn(P, m, e, a)
  {
    ScanThrough(P, s, b, f);
    StartSplit3(P, s, f, m, e, a);
    if a < f {
      StartSplit(P, s, b, f, a);
    }
  }

  lemma OrClosed(P: Code, s: nat, b: nat, f: nat, m: nat, e: nat, x: nat)
    requires b == s + 3 && m == f + 3 && Block(P, b, f) && Block(P, m, e)
    requires InsLen(P, s) == 3 && InsLen(P, f) == 3
    requires Edges(P, s) == {b as int, m as int} && Edges(P, f) == {x as int} && m <= x <= e
    requires Scan(P, s, b) && Scan(P, s, m) && Scan(P, s, x) && Scan(P, f, m)
    ensures forall a: nat | StartIn(P, s, e, a) :: Closed(P, s, e, a)
  {
    hide Edges, InsLen, Entered, LoopShape, Target;
    forall a: nat | StartIn(P, s, e, a)
      ensures Closed(P, s, e, a)
    {
      StartSplit4(P, s, b, f, m, e, a);
      if a < b {
        OneStart(P, s, a);
      } else if a < f {
        JoinClosed(P, s, b, f, a);
      } else if a < m {
        OneStart(P, f, a);
      } else {
        JoinClosed(P, s, m, e, a);
      }
    }
  }

  lemma OrLoop(P: Code, s: nat, b: nat, f: nat, m: nat, e: nat, x: nat, k: nat)
    requires b == s + 3 && m == f + 3 && Block(P, b, f) && Block(P, m, e)
    requires InsLen(P, s) == 3 && InsLen(P, f) == 3
    requires Edges(P, s) == {b as int, m as int} && Edges(P, f) == {x as int}
    requires Scan(P, s, b) && Scan(P, f, m) && Scan(P, s, m) && m <= x && Outer(P, m, e, x)
    requires EndsLoop(P, b, f, k) || EndsLoop(P, m, e, k)
    ensures EndsLoop(P, s, e, k) && LoopShape(P, s, e, k) && Entered(P, s, e, k)
  {
    hide Edges, InsLen, Entered, Target;
    var lo, hi := if k < f then b else m, if k < f then f else e;
    assert EndsLoop(P, lo, hi, k) && LoopShape(P, lo, hi, k);
    forall a: nat, y | StartIn(P, s, e, a) && !(lo <= a < hi) && y in Edges(P, a)
      ensures !(Head(P, k) + 3 <= y <= k)
    {
      StartSplit4(P, s, b, f, m, e, a);
      if a < b {
        OneStart(P, s, a);
      } else if a < f {
        assert Closed(P, b, f, a);
      } else if a < m {
        OneStart(P, f, a);
      } else {
        assert Closed(P, m, e, a);
      }
    }
    WidenLoop(P, lo, hi, s, e, k);
  }

  // ----- trees -----

  // A loop as the compiler leaves it, whose body is one instruction that matches one character.
  predicate SimpleLoop(P: Code, m: nat) {
    var b := Head(P, m) + 3;
    && m < |P| && P[m] == MAYBE_POP_JUMP
    && 0 <= b < |P| && InsLen(P, b) > 0 && b + InsLen(P, b) == m
    && (IsEater(P[b]) || (P[b] == EXACTN && P[b + 1] == 1))
  }

  // The backward jumps end simple loops, and the dummy jumps pass over the head of a loop.
  predicate SimpleAt(P: Code, a: nat)
    requires a < |P|
  {
    && (IsBack(P[a]) ==> SimpleLoop(P, a))
    && (P[a] == DUMMY_FAILURE_JUMP ==> a + 6 <= |P| && Target(P, a) == a + 6)
  }

  ghost predicate Simple(P: Code, s: nat, e: nat) {
    forall a: nat | StartIn(P, s, e, a) :: SimpleAt(P, a)
  }

  // Trees without intervals in which `*' and `+' apply to one-character atoms only.
  predicate SimpleAtom(a: Atom) {
    a.Group? ==> SimpleRegex(a.r)
  }

  predicate SimplePiece(p: Piece) {
    && SimpleAtom(p.atom)
    && !p.Bounded? && (p.Rep? && p.atom.Group? ==> !ManyOk(p.ops))
  }

  predicate SimpleBranch(b: Branch) {
    b.Then? ==> SimplePiece(b.first) && SimpleBranch(b.rest)
  }

  predicate SimpleRegex(r: Regex) {
    SimpleBranch(r.branch) && (r.Or? ==> SimpleRegex(r.rest))
  }

  lemma JoinSimple(P: Code, s: nat, m: nat, e: nat)
    requires Block(P, s, m) && Block(P, m, e)
    ensures Block(P, s, e)
    ensures Simple(P, s, m) && Simple(P, m, e) ==> Simple(P, s, e)
  {
    hide Entered, LoopShape, Closed, InsLen, SimpleAt;
    JoinBlocks(P, s, m, e);
    forall a: nat | StartIn(P, s, e, a)
      ensures StartIn(P, s, m, a) || StartIn(P, m, e, a)
    {
      StartSplit(P, s, m, e, a);
    }
  }

  lemma OneSimple(P: Code, s: nat)
    requires s < |P| && InsLen(P, s) > 0 && !IsJump(P[s])
    ensures Block(P, s, s + InsLen(P, s)) && Simple(P, s, s + InsLen(P, s))
  {
    hide InsLen;
    OneBlock(P, s);
    var e := s + InsLen(P, s);
    forall a: nat | StartIn(P, s, e, a)
      ensures a == s
    {
      OneStart(P, s, a);
    }
  }

  predicate IsRun(g: Code) {
    |g| >= 3 && g[0] == EXACTN && g[1] == |g| - 2
  }

  // At most one instruction that is no jump.
  lemma PlainBlock(P: Code, s: nat, g: Code)
    requires At(P, s, g)
    requires g == [] || IsNoOp(g) || IsRun(g)
    ensures Block(P, s, s + |g|) && Simple(P, s, s + |g|)
  {
    if g == [] {
      EmptyBlock(P, s);
      assert Simple(P, s, s);
    } else {
      assert P[s..s + |g|][0] == g[0] == P[s];
      assert |g| > 1 ==> P[s..s + |g|][1] == g[1] == P[s + 1];
      assert InsLen(P, s) == |g|;
      OneSimple(P, s);
    }
  }

  lemma {:induction false} RegexBlock(r: Regex, reg: nat, P: Code, s: nat)
    requires WellFormed(r) && |P| <= MAX_OFFSET && At(P, s, RegexCode(r, reg))
    ensures
      var e := s + |RegexCode(r, reg)|;
      var x := s + FirstAltEnd(r, reg);
      && Block(P, s, e) && (SimpleRegex(r) ==> Simple(P, s, e))
      && s <= x <= e && Scan(P, s, x) && Outer(P, s, e, x)
    decreases r
  {
    hide Block, At, BranchCode, Scan, Outer, Op1, Target, InsLen;
    if r.Last? {
      BranchBlock(r.branch, [], reg, P, s);
      EndIsOuter(P, s, s + |RegexCode(r, reg)|);
    } else {
      OrLayout(P, s, r, reg);
      var first := BranchCode(r.branch, [], reg);
      var reg' := reg + GroupsB(r.branch);
      var b, f := s + 3, s + 3 + |first|;
      var m := f + 3;
      var e := s + |RegexCode(r, reg)|;
      BranchBlock(r.branch, [], reg, P, b);
      RegexBlock(r.rest, reg', P, m);
      JumpAt(P, s, ON_FAILURE_JUMP, |first| + 3);
      JumpAt(P, f, JUMP_PAST_ALT, FirstAltEnd(r.rest, reg'));
      OrBlock(P, s, b, f, m, e);
      OrSimple(P, s, b, f, m, e);
    }
  }

  lemma EndIsOuter(P: Code, s: nat, e: nat)
    requires Block(P, s, e)
    ensures Scan(P, s, e) && Outer(P, s, e, e)
  {
    hide InsLen, Entered, LoopShape, Closed;
  }

  lemma OrSimple(P: Code, s: nat, b: nat, f: nat, m: nat, e: nat)
    requires b == s + 3 && m == f + 3 && Block(P, b, f) && Block(P, m, e)
    requires P[s] == ON_FAILURE_JUMP && InsLen(P, s) == 3 && P[f] == JUMP_PAST_ALT && InsLen(P, f) == 3
    ensures Simple(P, b, f) && Simple(P, m, e) ==> Simple(P, s, e)
    ensures Scan(P, s, f) && Outer(P, s, e, f)
  {
    hide InsLen, Entered, Closed, SimpleAt;
    ScanOne(P, s);
    ScanOne(P, f);
    ScanThrough(P, s, b, f);
    forall a: nat | StartIn(P, s, e, a)
      ensures a == s || a == f || StartIn(P, b, f, a) || StartIn(P, m, e, a)
      ensures IsBack(P[a]) ==> !(Head(P, a) + 3 <= f <= a)
    {
      StartSplit4(P, s, b, f, m, e, a);
      if a < b {
        OneStart(P, s, a);
      } else if f <= a < m {
        OneStart(P, f, a);
      } else if m <= a && IsBack(P[a]) {
        assert LoopShape(P, m, e, a);
      }
    }
    assert SimpleAt(P, s) && SimpleAt(P, f) by {
      PlainIsSimple(P, s);
      PlainIsSimple(P, f);
    }
  }

  lemma PlainIsSimple(P: Code, a: nat)
    requires a < |P| && (P[a] == ON_FAILURE_JUMP || P[a] == JUMP_PAST_ALT)
    ensures SimpleAt(P, a)
  {
  }

  lemma {:induction false} BranchBlock(b: Branch, run: Text, reg: nat, P: Code, s: nat)
    requires WellFormedBranch(b) && |run| <= 255 && |P| <= MAX_OFFSET && At(P, s, BranchCode(b, run, reg))
    ensures
      var e := s + |BranchCode(b, run, reg)|;
      Block(P, s, e) && (SimpleBranch(b) ==> Simple(P, s, e))
    decreases b
  {
    hide Block, At, Simple, Flush, PieceCode, SimplePiece, GroupsA;
    if b.Empty? {
      RunBlock(run, P, s);
    } else if IsLiteral(b.first) && 0 < |run| < 255 {
      BranchBlock(b.rest, run + [b.first.atom.c], reg, P, s);
    } else if IsLiteral(b.first) {
      var c := b.first.atom.c;
      AtParts(P, s, Flush(run), BranchCode(b.rest, [c], reg));
      RunBlock(run, P, s);
      BranchBlock(b.rest, [c], reg, P, s + |Flush(run)|);
      JoinSimple(P, s, s + |Flush(run)|, s + |BranchCode(b, run, reg)|);
    } else {
      var first := PieceCode(b.first, reg);
      var reg' := reg + GroupsA(b.first.atom);
      AtParts(P, s, Flush(run) + first, BranchCode(b.rest, [], reg'));
      AtParts(P, s, Flush(run), first);
      var x := s + |Flush(run)|;
      RunBlock(run, P, s);
      PieceBlock(b.first, reg, P, x);
      BranchBlock(b.rest, [], reg', P, x + |first|);
      JoinSimple(P, s, x, x + |first|);
      JoinSimple(P, s, x + |first|, s + |BranchCode(b, run, reg)|);
    }
  }

  lemma RunBlock(run: Text, P: Code, s: nat)
    requires |run| <= 255 && At(P, s, Flush(run))
    ensures Block(P, s, s + |Flush(run)|) && Simple(P, s, s + |Flush(run)|)
  {
    hide Block, Simple, At;
    assert run != [] ==> IsRun(Flush(run));
    PlainBlock(P, s, Flush(run));
  }

  lemma {:induction false} PieceBlock(p: Piece, reg: nat, P: Code, s: nat)
    requires WellFormedPiece(p) && |P| <= MAX_OFFSET && At(P, s, PieceCode(p, reg))
    ensures
      var e := s + |PieceCode(p, reg)|;
      Block(P, s, e) && (SimplePiece(p) ==> Simple(P, s, e))
    decreases p
  {
    hide Block, At, AtomCode, RepCode;
    if p.Single? {
      AtomBlock(p.atom, reg, P, s);
    } else {
      var X := AtomCode(p.atom, reg);
      var zeroOk, manyOk := ZeroOk(p.ops), ManyOk(p.ops);
      RepSomething(p.ops);
      RepLayout(P, s, X, zeroOk, manyOk);
      var b := s + if zeroOk then 3 else 6;
      AtomBlock(p.atom, reg, P, b);
      RepBlock(P, s, X, zeroOk, manyOk);
      if !p.atom.Group? && manyOk {
        SimpleBody(p.atom, reg, P, b, b + |X|);
      }
    }
  }

  lemma RepBlock(P: Code, s: nat, X: Code, zeroOk: bool, manyOk: bool)
    requires |P| <= MAX_OFFSET && At(P, s, RepCode(X, zeroOk, manyOk)) && (zeroOk || manyOk)
    requires
      var b := s + if zeroOk then 3 else 6;
      Block(P, b, b + |X|)
    ensures
      var b := s + if zeroOk then 3 else 6;
      var e := s + |RepCode(X, zeroOk, manyOk)|;
      && Block(P, s, e)
      && (manyOk ==> Head(P, b + |X|) + 3 == b && b + |X| < |P| && P[b + |X|] == MAYBE_POP_JUMP)
      && (Simple(P, b, b + |X|) && (manyOk ==> SimpleLoop(P, b + |X|)) ==> Simple(P, s, e))
  {
    hide Block, At, RepCode, SimpleLoop, Simple, SimpleAt;
    RepLayout(P, s, X, zeroOk, manyOk);
    var l := s + if zeroOk then 0 else 3;
    var b := l + 3;
    var m := b + |X|;
    JumpAt(P, l, ON_FAILURE_JUMP, |X| + if manyOk then 3 else 0);
    if !manyOk {
      OptBlock(P, l, b, m);
      HeadSimple(P, l, b, m);
    } else {
      var e := m + 3;
      JumpAt(P, m, MAYBE_POP_JUMP, -|X| - 6);
      LoopBlock(P, l, b, m, e);
      HeadSimple(P, l, b, m);
      TailSimple(P, l, m, e);
      if !zeroOk {
        JumpAt(P, s, DUMMY_FAILURE_JUMP, 3);
        LoopHeads(P, l, b, m, e);
        PlusBlock(P, s, l, e, m);
        HeadSimple(P, s, l, e);
      }
    }
  }

  // One more jump before, or after, a stretch of whole instructions.
  lemma HeadSimple(P: Code, s: nat, b: nat, e: nat)
    requires b == s + 3 <= e <= |P| && InsLen(P, s) == 3 && Block(P, b, e)
    requires P[s] == ON_FAILURE_JUMP || (P[s] == DUMMY_FAILURE_JUMP && s + 6 <= |P| && Target(P, s) == s + 6)
    ensures Simple(P, b, e) ==> Simple(P, s, e)
    ensures Scan(P, s, e)
  {
    hide InsLen, Entered, Closed, SimpleLoop, LoopShape;
    ScanOne(P, s);
    ScanThrough(P, s, b, e);
    forall a: nat | StartIn(P, s, e, a)
      ensures a == s || StartIn(P, b, e, a)
    {
      StartSplit(P, s, b, e, a);
      if a < b {
        OneStart(P, s, a);
      }
    }
  }

  lemma TailSimple(P: Code, s: nat, m: nat, e: nat)
    requires s <= m && e == m + 3 <= |P| && InsLen(P, m) == 3 && Scan(P, s, m) && IsBack(P[m])
    ensures Simple(P, s, m) && SimpleLoop(P, m) ==> Simple(P, s, e)
  {
    hide InsLen, SimpleLoop;
    forall a: nat | StartIn(P, s, e, a)
      ensures a == m || StartIn(P, s, m, a)
    {
      StartSplit(P, s, m, e, a);
      if m <= a {
        OneStart(P, m, a);
      }
    }
  }

  lemma LoopHeads(P: Code, l: nat, b: nat, m: nat, e: nat)
    requires b == l + 3 && e == m + 3 && Block(P, b, m) && Block(P, l, e)
    requires Scan(P, l, b) && IsBack(P[m]) && InsLen(P, m) == 3
    requires forall k: nat | EndsLoop(P, l, e, k) :: k == m || EndsLoop(P, b, m, k)
    ensures EndsLoop(P, l, e, m)
    ensures forall k: nat | EndsLoop(P, l, e, k) :: k == m || l < Head(P, k)
  {
    hide InsLen, Entered, Closed;
    ScanThrough(P, l, b, m);
    forall k: nat | EndsLoop(P, l, e, k)
      ensures k == m || l < Head(P, k)
    {
      if k != m {
        assert LoopShape(P, b, m, k);
      }
    }
  }

  lemma SimpleBody(a: Atom, reg: nat, P: Code, b: nat, m: nat)
    requires OneChar(a) && At(P, b, AtomCode(a, reg)) && m == b + |AtomCode(a, reg)|
    requires Head(P, m) + 3 == b && m < |P| && P[m] == MAYBE_POP_JUMP
    ensures SimpleLoop(P, m)
  {
    AtomEats(P, b, a, reg);
  }

  lemma GroupBlock(P: Code, s: nat, body: Code, regnum: nat, inner: nat, alternatives: bool)
    requires At(P, s, GroupCode(body, regnum, inner, alternatives))
    requires
      var x := s + GroupHead(regnum);
      Block(P, x, x + |body|)
    ensures
      var x := s + GroupHead(regnum);
      var z := s + |GroupCode(body, regnum, inner, alternatives)|;
      Block(P, s, z) && (Simple(P, x, x + |body|) ==> Simple(P, s, z))
  {
    hide Block, At, Simple;
    GroupLayout(P, s, body, regnum, inner, alternatives);
    var h := if regnum <= MAX_REGNUM then [START_MEMORY, regnum, inner % 256] else [];
    var d := if alternatives then [PUSH_DUMMY_FAILURE] else [];
    var e := if regnum <= MAX_REGNUM then [STOP_MEMORY, regnum, inner % 256] else [];
    var x := s + |h|;
    var y := x + |body|;
    PlainBlock(P, s, h);
    PlainBlock(P, y, d);
    PlainBlock(P, y + |d|, e);
    JoinSimple(P, s, x, y);
    JoinSimple(P, s, y, y + |d|);
    JoinSimple(P, s, y + |d|, y + |d| + |e|);
  }

  lemma CharBlock(a: Atom, reg: nat, P: Code, s: nat)
    requires OneChar(a) && At(P, s, AtomCode(a, reg))
    ensures Block(P, s, s + |AtomCode(a, reg)|) && Simple(P, s, s + |AtomCode(a, reg)|)
  {
    hide Block, At, Simple, SimpleAt, AtomCode;
    AtomEats(P, s, a, reg);
    OneSimple(P, s);
  }

  lemma {:induction false} AtomBlock(a: Atom, reg: nat, P: Code, s: nat)
    requires WellFormedAtom(a) && |P| <= MAX_OFFSET && At(P, s, AtomCode(a, reg))
    ensures
      var e := s + |AtomCode(a, reg)|;
      Block(P, s, e) && (SimpleAtom(a) ==> Simple(P, s, e))
    decreases a
  {
    hide Block, At, Simple, RegexCode, GroupCode, InsLen, BracketCode, SimpleAt, RegexText;
    if a.Group? {
      var body := RegexCode(a.r, reg + 1);
      GroupLayout(P, s, body, reg + 1, GroupsR(a.r), a.r.Or?);
      RegexBlock(a.r, reg + 1, P, s + GroupHead(reg + 1));
      GroupBlock(P, s, body, reg + 1, GroupsR(a.r), a.r.Or?);
    } else {
      CharBlock(a, reg, P, s);
    }
  }

  // The code of every tree is well formed; its loops are simple when the tree's are.
  lemma CodeIsWellFormed(r: Regex)
    requires WellFormed(r) && |RegexCode(r, 0)| <= MAX_OFFSET
    ensures WellFormedCode(RegexCode(r, 0))
    ensures SimpleRegex(r) ==> Simple(RegexCode(r, 0), 0, |RegexCode(r, 0)|)
  {
    var P := RegexCode(r, 0);
    assert At(P, 0, P);
    RegexBlock(r, 0, P, 0);
  }
}
