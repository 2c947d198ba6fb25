/**
 Where the addresses in compiled code lead, for every pattern there is, intervals too: each
 jump lands on the start of an instruction or on the end of the code, and each number to be
 set is the count of a counted jump. Every turn of the compiler keeps it, although code is
 inserted before addresses already stored: code is only ever inserted at places no stored
 address crosses, the cuts.
 */
module RegexLanding {
  import opened Wrappers
  import opened RegexBytes
  import opened RegexSyntax
  import opened RegexGen
  import opened RegexNfa
  import opened RegexCompileSpec

  predicate Counted(op: byte) {
    op == SUCCEED_N || op == JUMP_N
  }

  // The length of the instruction at a, or of bytes reserved for a jump; 0 when there is none.
  function Width(P: Code, a: nat): (len: nat)
    requires a < |P|
    ensures len > 0 ==> a + len <= |P|
  {
    if Counted(P[a]) || P[a] == SET_NUMBER_AT then (if a + 5 <= |P| then 5 else 0)
    else if P[a] == NO_OP then (if a + 3 <= |P| then 3 else 0)
    else InsLen(P, a)
  }

  // The instruction that the address in the one at a is about. A number to be set is the last
  // two bytes of a counted jump, three bytes from its start. Reserved addresses are not read.
  function Lead(P: Code, H: set<nat>, a: nat): Option<int>
    requires a < |P|
  {
    if a in H || Width(P, a) < 3 || a + 3 > |P| then None
    else if IsJump(P[a]) || Counted(P[a]) then Some(a + 3 + Extract(P[a + 1], P[a + 2]))
    else if P[a] == SET_NUMBER_AT then Some(a + Extract(P[a + 1], P[a + 2]))
    else None
  }

  // Reading whole instructions from s on comes by x.
  predicate Walk(P: Code, s: int, x: int)
    decreases |P| - s
  {
    s == x || (0 <= s < |P| && Width(P, s) > 0 && Walk(P, s + Width(P, s), x))
  }

  predicate StartOf(P: Code, s: nat, e: nat, a: nat) {
    s <= a < e <= |P| && Walk(P, s, a)
  }

  // What the instruction at a leads to is an instruction between lo and hi, or hi itself. A
  // number to be set is that of a counted jump, which already has it.
  predicate LeadOk(P: Code, H: set<nat>, a: nat, lo: nat, hi: nat)
    requires a < |P|
  {
    Lead(P, H, a).Some? ==>
      var x := Lead(P, H, a).value;
      && lo <= x <= hi && Walk(P, lo, x)
      && (P[a] == SET_NUMBER_AT ==>
            && x + 5 <= hi && x + 5 <= |P| && a + 5 <= |P|
            && Counted(P[x]) && P[x + 3] == P[a + 3] && P[x + 4] == P[a + 4])
  }

  // The instructions from s to e lead to instructions between lo and hi.
  ghost predicate Leads(P: Code, H: set<nat>, s: nat, e: nat, lo: nat, hi: nat) {
    && s <= e <= |P| && Walk(P, s, e)
    && forall a: nat | StartOf(P, s, e, a) :: LeadOk(P, H, a, lo, hi)
  }

  // They lead nowhere else.
  ghost predicate Closed(P: Code, H: set<nat>, s: nat, e: nat) {
    Leads(P, H, s, e, s, e)
  }

  // No address crosses c.
  ghost predicate Cut(P: Code, H: set<nat>, c: nat) {
    Closed(P, H, 0, c) && Closed(P, H, c, |P|)
  }

  // ----- walking -----

  lemma {:induction false} WalkUp(P: Code, s: int, x: int)
    requires Walk(P, s, x)
    ensures s <= x && (s < |P| ==> x <= |P|)
    decreases |P| - s
  {
    if s != x {
      WalkUp(P, s + Width(P, s), x);
    }
  }

  lemma {:induction false} WalkThrough(P: Code, s: int, m: int, x: int)
    requires Walk(P, s, m) && Walk(P, m, x)
    ensures Walk(P, s, x)
    decreases |P| - s
  {
    if s != m {
      WalkThrough(P, s + Width(P, s), m, x);
    }
  }

  lemma {:induction false} WalkOn(P: Code, s: int, m: int, x: int)
    requires Walk(P, s, m) && Walk(P, s, x) && m <= x
    ensures Walk(P, m, x)
    decreases |P| - s
  {
    if s != m {
      WalkUp(P, s + Width(P, s), m);
      WalkOn(P, s + Width(P, s), m, x);
    }
  }

  lemma WalkNext(P: Code, s: int, a: nat, x: int)
    requires Walk(P, s, a) && Walk(P, s, x) && a < x && a < |P|
    ensures Width(P, a) > 0 && a + Width(P, a) <= x
  {
    WalkOn(P, s, a, x);
    WalkUp(P, a + Width(P, a), x);
  }

  lemma WalkOne(P: Code, s: nat)
    requires s < |P| && Width(P, s) > 0
    ensures Walk(P, s, s + Width(P, s))
  {
    assert Walk(P, s + Width(P, s), s + Width(P, s));
  }

  lemma WidthSame(P: Code, s: nat, Q: Code, t: nat, len: nat)
    requires s < |P| && Width(P, s) == len > 0 && t + len <= |Q| && Q[t..t + len] == P[s..s + len]
    ensures Width(Q, t) == len && Q[t] == P[s]
    ensures len >= 3 ==> Q[t + 1] == P[s + 1] && Q[t + 2] == P[s + 2]
    ensures len >= 5 ==> Q[t + 3] == P[s + 3] && Q[t + 4] == P[s + 4]
  {
    assert Q[t..t + len][0] == P[s..s + len][0];
    assert len > 1 ==> Q[t..t + len][1] == P[s..s + len][1];
    assert len > 2 ==> Q[t..t + len][2] == P[s..s + len][2];
    assert len > 4 ==> Q[t..t + len][3] == P[s..s + len][3] && Q[t..t + len][4] == P[s..s + len][4];
  }

  // The same bytes elsewhere are walked the same way.
  lemma {:induction false} WalkMoved(P: Code, s: nat, x: nat, Q: Code, t: nat)
    requires s <= x <= |P| && t + (x - s) <= |Q| && Q[t..t + (x - s)] == P[s..x] && Walk(P, s, x)
    ensures Walk(Q, t, t + (x - s))
    decreases x - s
  {
    hide Width, Counted, InsLen;
    if s != x {
      hide Width;
      var len := Width(P, s);
      WalkUp(P, s + len, x);
      SameSlice(P, s, x, Q, t, s, s + len);
      SameSlice(P, s, x, Q, t, s + len, x);
      WidthSame(P, s, Q, t, len);
      WalkMoved(P, s + len, x, Q, t + len);
    }
  }

  // ----- blocks -----

  lemma StartSplit(P: Code, s: nat, m: nat, e: nat, a: nat)
    requires s <= m <= e && Walk(P, s, m) && StartOf(P, s, e, a)
    ensures if a < m then StartOf(P, s, m, a) else StartOf(P, m, e, a)
  {
    if m <= a {
      WalkOn(P, s, m, a);
    }
  }

  lemma LeadsJoin(P: Code, H: set<nat>, s: nat, m: nat, e: nat, lo: nat, hi: nat)
    requires Leads(P, H, s, m, lo, hi) && Leads(P, H, m, e, lo, hi)
    ensures Leads(P, H, s, e, lo, hi)
  {
    hide LeadOk;
    WalkThrough(P, s, m, e);
    forall a: nat | StartOf(P, s, e, a)
      ensures LeadOk(P, H, a, lo, hi)
    {
      StartSplit(P, s, m, e, a);
    }
  }

  lemma LeadsOne(P: Code, H: set<nat>, s: nat, lo: nat, hi: nat)
    requires s < |P| && Width(P, s) > 0 && LeadOk(P, H, s, lo, hi)
    ensures Leads(P, H, s, s + Width(P, s), lo, hi)
  {
    hide LeadOk, Width;
    WalkOne(P, s);
    var e := s + Width(P, s);
    forall a: nat | StartOf(P, s, e, a)
      ensures a == s
    {
      if a != s {
        WalkUp(P, e, a);
      }
    }
  }

  lemma LeadsWiden(P: Code, H: set<nat>, s: nat, e: nat, lo: nat, hi: nat)
    requires Closed(P, H, s, e) && lo <= s && e <= hi && Walk(P, lo, s)
    ensures Leads(P, H, s, e, lo, hi)
  {
    hide Lead, Width;
    forall a: nat | StartOf(P, s, e, a)
      ensures LeadOk(P, H, a, lo, hi)
    {
      assert LeadOk(P, H, a, s, e);
      if Lead(P, H, a).Some? {
        WalkThrough(P, lo, s, Lead(P, H, a).value);
      }
    }
  }

  lemma ClosedJoin(P: Code, H: set<nat>, s: nat, m: nat, e: nat)
    requires Closed(P, H, s, m) && Closed(P, H, m, e)
    ensures Closed(P, H, s, e)
  {
    hide LeadOk;
    LeadsWiden(P, H, s, m, s, e);
    LeadsWiden(P, H, m, e, s, e);
    LeadsJoin(P, H, s, m, e, s, e);
  }

  lemma ClosedNone(P: Code, H: set<nat>, s: nat)
    requires s <= |P|
    ensures Closed(P, H, s, s)
  {
  }

  predicate SameHoles(H: set<nat>, s: nat, e: nat, K: set<nat>, t: nat) {
    forall a: nat | s <= a < e :: (a in H <==> t + (a - s) in K)
  }

  // A block moves as a whole: its addresses are relative.
  lemma ClosedMoved(P: Code, H: set<nat>, s: nat, e: nat, Q: Code, K: set<nat>, t: nat)
    requires Closed(P, H, s, e) && t + (e - s) <= |Q| && Q[t..t + (e - s)] == P[s..e] && SameHoles(H, s, e, K, t)
    ensures Closed(Q, K, t, t + (e - s))
  {
    hide LeadOk, Walk, Width;
    var f := t + (e - s);
    WalkMoved(P, s, e, Q, t);
    forall b: nat | StartOf(Q, t, f, b)
      ensures LeadOk(Q, K, b, t, f)
    {
      var a := s + (b - t);
      assert P[s..e] == Q[t..f][..e - s];
      assert P[s..a] == Q[t..b] by {
        assert P[s..a] == P[s..e][..a - s] == Q[t..f][..b - t] == Q[t..b];
      }
      WalkMoved(Q, t, b, P, s);
      assert LeadOk(P, H, a, s, e);
      WalkNext(P, s, a, e);
      LeadMoved(P, H, s, e, Q, K, t, a);
    }
  }

  lemma LeadMoved(P: Code, H: set<nat>, s: nat, e: nat, Q: Code, K: set<nat>, t: nat, a: nat)
    requires s <= a < e <= |P| && t + (e - s) <= |Q| && Q[t..t + (e - s)] == P[s..e] && SameHoles(H, s, e, K, t)
    requires Width(P, a) > 0 && a + Width(P, a) <= e && LeadOk(P, H, a, s, e)
    ensures LeadOk(Q, K, t + (a - s), t, t + (e - s))
  {
    hide InsLen, Walk;
    var b := t + (a - s);
    var len := Width(P, a);
    SameSlice(P, s, e, Q, t, a, a + len);
    WidthSame(P, a, Q, b, len);
    assert P[a] == SET_NUMBER_AT ==> len == 5;
    hide Width, Walk;
    if Lead(P, H, a).Some? {
      var x := Lead(P, H, a).value;
      SameSlice(P, s, e, Q, t, s, x);
      WalkMoved(P, s, x, Q, t);
      if P[a] == SET_NUMBER_AT {
        var R := Q[t..t + (e - s)];
        assert R[x - s] == P[s..e][x - s] && R[x - s + 3] == P[s..e][x - s + 3] && R[x - s + 4] == P[s..e][x - s + 4];
      }
    }
  }

  lemma SameSlice(P: Code, s: nat, e: nat, Q: Code, t: nat, x: int, y: int)
    requires s <= x <= y <= e <= |P| && t + (e - s) <= |Q| && Q[t..t + (e - s)] == P[s..e]
    ensures Q[t + (x - s)..t + (y - s)] == P[x..y]
  {
    var u, v := Q[t + (x - s)..t + (y - s)], P[x..y];
    forall k | 0 <= k < |v|
      ensures u[k] == v[k]
    {
      assert Q[t..t + (e - s)][x - s + k] == P[s..e][x - s + k];
    }
    assert u == v;
  }

  // Between two cuts there is a block.
  lemma Middle(P: Code, H: set<nat>, c: nat, d: nat)
    requires Cut(P, H, c) && Cut(P, H, d) && c <= d
    ensures Closed(P, H, c, d)
  {
    hide Lead, Width;
    WalkOn(P, 0, c, d);
    forall a: nat | StartOf(P, c, d, a)
      ensures LeadOk(P, H, a, c, d)
    {
      assert StartOf(P, c, |P|, a);
      WalkThrough(P, 0, c, a);
      assert StartOf(P, 0, d, a);
      assert LeadOk(P, H, a, 0, d) && LeadOk(P, H, a, c, |P|);
    }
  }

  // After a cut everything may be replaced by another block.
  lemma CutKept(P: Code, H: set<nat>, Q: Code, K: set<nat>, c: nat, z: nat)
    requires Cut(P, H, c) && Cut(P, H, z) && c <= z <= |Q| && Q[..z] == P[..z] && SameHoles(H, 0, z, K, 0)
    requires Closed(Q, K, z, |Q|)
    ensures Cut(Q, K, c)
  {
    hide *;
    CutIs(Q, K, c);
    assert Closed(Q, K, 0, c) && Closed(Q, K, c, z) by {
      FrontKept(P, H, Q, K, c, z);
    }
    ClosedJoin(Q, K, c, z, |Q|);
  }

  // What stands before a cut stays, up to another cut.
  lemma FrontKept(P: Code, H: set<nat>, Q: Code, K: set<nat>, c: nat, z: nat)
    requires Cut(P, H, c) && Cut(P, H, z) && c <= z <= |Q| && Q[..z] == P[..z] && SameHoles(H, 0, z, K, 0)
    ensures Closed(Q, K, 0, c) && Closed(Q, K, c, z)
  {
    hide *;
    CutIs(P, H, c);
    CutBounds(P, H, z);
    Middle(P, H, c, z);
    PieceKept(P, H, Q, K, z, 0, c);
    PieceKept(P, H, Q, K, z, c, z);
  }

  lemma PieceKept(P: Code, H: set<nat>, Q: Code, K: set<nat>, z: nat, s: nat, e: nat)
    requires s <= e <= z <= |P| && z <= |Q| && Q[..z] == P[..z] && SameHoles(H, 0, z, K, 0) && Closed(P, H, s, e)
    ensures Closed(Q, K, s, e)
  {
    hide *;
    SamePiece(P, Q, z, s, e);
    SomeHoles(H, z, K, s, e);
    ClosedMoved(P, H, s, e, Q, K, s);
  }

  lemma SamePiece(P: Code, Q: Code, z: nat, s: nat, e: nat)
    requires s <= e <= z <= |P| && z <= |Q| && Q[..z] == P[..z]
    ensures Q[s..s + (e - s)] == P[s..e]
  {
    forall k | s <= k < e
      ensures Q[k] == P[k]
    {
      assert Q[..z][k] == P[..z][k];
    }
  }

  lemma SomeHoles(H: set<nat>, z: nat, K: set<nat>, s: nat, e: nat)
    requires SameHoles(H, 0, z, K, 0) && s <= e <= z
    ensures SameHoles(H, s, e, K, s)
  {
    forall a: nat | s <= a < e
      ensures a in H <==> s + (a - s) in K
    {
      assert a in H <==> 0 + (a - 0) in K;
    }
  }

  lemma CutIs(P: Code, H: set<nat>, c: nat)
    ensures Cut(P, H, c) <==> Closed(P, H, 0, c) && Closed(P, H, c, |P|)
  {
  }

  lemma CutBounds(P: Code, H: set<nat>, c: nat)
    requires Cut(P, H, c)
    ensures c <= |P| && Walk(P, 0, c) && Walk(P, c, |P|)
  {
  }
}
