/**
 The fastmap of a compiled pattern: which characters can begin a match, and whether the
 pattern can match nothing at all. It is found by walking the code along every way that
 consumes nothing, with a stack of addresses still to visit. A loop is left at its end, so
 the walk only goes forward.
 */
module RegexFastmap {
  import opened RegexBytes
  import opened RegexSyntax
  import opened RegexGen
  import opened RegexNfa
  import opened RegexBlocks
  import opened RegexQuiet
  import opened RegexVm
  import opened RegexVmProof
  import opened RegexMatch

  // ----- what the code can do first -----

  // From the first byte to b over at most n instructions that consume nothing.
  ghost predicate ReachedIn(P: Code, b: int, n: nat)
    decreases n
  {
    || b == 0
    || (n > 0 && exists a: nat :: a < |P| && !Consumes(P[a]) && b in Edges(P, a) && ReachedIn(P, a, n - 1))
  }

  ghost predicate Reached(P: Code, b: int) {
    exists n: nat :: ReachedIn(P, b, n)
  }

  // The end of the code is reached without consuming anything.
  ghost predicate Nullable(P: Code) {
    Reached(P, |P|)
  }

  // What the fastmap takes the instruction at a to begin with: `.' with any character.
  predicate CanStart(P: Code, a: nat, c: byte)
    requires a < |P| && InsLen(P, a) > 0
  {
    P[a] == ANYCHAR || Begins(P, a, c)
  }

  ghost predicate StartsWith(P: Code, a: nat, c: byte) {
    Reached(P, a) && a < |P| && InsLen(P, a) > 0 && Consumes(P[a]) && CanStart(P, a, c)
  }

  ghost predicate First(P: Code, c: byte) {
    exists a: nat :: StartsWith(P, a, c)
  }

  lemma ReachedZero(P: Code)
    ensures Reached(P, 0)
  {
    assert ReachedIn(P, 0, 0);
  }

  lemma ReachedNext(P: Code, a: nat, b: int)
    requires Reached(P, a) && a < |P| && !Consumes(P[a]) && b in Edges(P, a)
    ensures Reached(P, b)
  {
    var n: nat :| ReachedIn(P, a, n);
    assert ReachedIn(P, b, n + 1);
  }

  // Ways that consume nothing go before any match.
  lemma {:induction false} ReachedAcc(P: Code, b: nat, n: nat, t: Text, i: nat, j: nat)
    requires ReachedIn(P, b, n) && i <= |t| && Acc(P, t, b, i, j)
    ensures Acc(P, t, 0, i, j)
    decreases n
  {
    if b != 0 {
      var a: nat :| a < |P| && !Consumes(P[a]) && b in Edges(P, a) && ReachedIn(P, a, n - 1);
      hide Acc, ReachedIn;
      EdgeSucc(P, t, a, b, i);
      AccStep(P, t, a, i, j);
      ReachedAcc(P, a, n - 1, t, i, j);
    }
  }

  lemma EdgeSucc(P: Code, t: Text, a: nat, b: nat, i: nat)
    requires a < |P| && !Consumes(P[a]) && b in Edges(P, a) && i <= |t|
    ensures
      var S := Succ(P, t, a, i);
      (|S| > 0 && S[0] == (b, i)) || (|S| > 1 && S[1] == (b, i))
  {
  }

  lemma AccNPick(P: Code, t: Text, a: nat, i: nat, j: nat, n: nat) returns (s: (nat, nat))
    requires i <= |t| && AccN(P, t, a, i, j, n) && !(a == |P| && i == j)
    ensures n > 0 && a < |P| && s in Succ(P, t, a, i) && i <= s.1 <= |t| && AccN(P, t, s.0, s.1, j, n - 1)
  {
    var k :| 0 <= k < |Succ(P, t, a, i)|
      && AccN(P, t, Succ(P, t, a, i)[k].0, Succ(P, t, a, i)[k].1, j, n - 1);
    hide AccN;
    s := Succ(P, t, a, i)[k];
  }

  lemma {:induction false} AccFirst(P: Code, t: Text, a: nat, i: nat, j: nat, n: nat)
    requires Reached(P, a) && i <= |t| && AccN(P, t, a, i, j, n)
    ensures (Nullable(P) && i == j) || (i < |t| && First(P, t[i]))
    decreases n
  {
    hide Reached, Edges, Succ, InsLen, AccN, CanStart;
    if !(a == |P| && i == j) {
      var s := AccNPick(P, t, a, i, j, n);
      SuccEdge(P, t, a, i, s);
      if Consumes(P[a]) {
        EaterStarts(P, t, a, i);
        assert StartsWith(P, a, t[i]);
      } else {
        ReachedNext(P, a, s.0);
        AccFirst(P, t, s.0, s.1, j, n - 1);
      }
    }
  }

  lemma EaterStarts(P: Code, t: Text, a: nat, i: nat)
    requires a < |P| && Consumes(P[a]) && i <= |t| && Succ(P, t, a, i) != []
    ensures i < |t| && InsLen(P, a) > 0 && CanStart(P, a, t[i])
  {
    if P[a] == EXACTN {
      var n := P[a + 1];
      assert t[i..i + n][0] == t[i] && P[a + 2..a + 2 + n][0] == P[a + 2];
    }
  }

  // An empty match exists exactly when the end is reached without consuming anything.
  lemma NullableMeans(P: Code, t: Text, i: nat)
    requires i <= |t|
    ensures Nullable(P) <==> Acc(P, t, 0, i, i)
  {
    if Nullable(P) {
      var n: nat :| ReachedIn(P, |P|, n);
      AccEnd(P, t, i, i);
      ReachedAcc(P, |P|, n, t, i, i);
    }
    if Acc(P, t, 0, i, i) {
      var n: nat :| AccN(P, t, 0, i, i, n);
      ReachedZero(P);
      NothingConsumed(P, t, 0, i, i, n);
    }
  }

  lemma {:induction false} NothingConsumed(P: Code, t: Text, a: nat, i: nat, j: nat, n: nat)
    requires Reached(P, a) && j <= i <= |t| && AccN(P, t, a, i, j, n)
    ensures Nullable(P)
    decreases n
  {
    hide Reached, Edges, Succ, InsLen, AccN;
    if !(a == |P| && i == j) {
      var s := AccNPick(P, t, a, i, j, n);
      SuccEdge(P, t, a, i, s);
      if Consumes(P[a]) {
        AccNBound(P, t, s.0, s.1, j, n - 1);
      } else {
        ReachedNext(P, a, s.0);
        NothingConsumed(P, t, s.0, s.1, j, n - 1);
      }
    }
  }

  // A match is empty, or begins with a character the code can start with.
  lemma FirstMeans(P: Code, t: Text, i: nat, j: nat)
    requires i <= |t| && Acc(P, t, 0, i, j)
    ensures Nullable(P) || (i < |t| && First(P, t[i]))
  {
    ReachedZero(P);
    var n: nat :| AccN(P, t, 0, i, j, n);
    AccFirst(P, t, 0, i, j, n);
  }

  // ----- the walk -----

  // Where the walk is, what it has still to visit, whether the way to p consumes nothing, and
  // what is known so far.
  datatype Walk = Walk(p: nat, stack: seq<nat>, pathNull: bool, nullable: bool, marks: seq<bool>)

  function Mark(P: Code, a: nat, marks: seq<bool>): (r: seq<bool>)
    requires a < |P| && InsLen(P, a) > 0 && |marks| == 256
    ensures |r| == 256 && forall c: byte :: r[c] <==> marks[c] || CanStart(P, a, c)
  {
    seq(256, c requires 0 <= c < 256 => marks[c] || CanStart(P, a, c))
  }

  // The end of one way: the next address on the stack.
  function NextWay(w: Walk): Walk
    requires w.stack != []
  {
    w.(p := w.stack[|w.stack| - 1], stack := w.stack[..|w.stack| - 1],
       nullable := w.nullable || w.pathNull, pathNull := true)
  }

  // A jump. One that does not go forward to a failure jump ends a loop, which is left; the
  // way out of it may be on the stack already.
  function Follow(P: Code, w: Walk): Walk
    requires w.p + 3 <= |P|
  {
    var x := Target(P, w.p);
    if x < 0 then w
    else if x > w.p + 3 || ByteAt(P, x) != ON_FAILURE_JUMP || x + 3 > |P| || Target(P, x) < 0 then w.(p := x)
    else
      var y := Target(P, x);
      if w.stack != [] && w.stack[|w.stack| - 1] == y then w.(p := y, stack := w.stack[..|w.stack| - 1])
      else w.(p := y)
  }

  // The switch. At a `.', once the pattern is known to match nothing, the walk is over.
  function OneStep(P: Code, w: Walk): Walk
    requires w.p < |P| && InsLen(P, w.p) > 0 && |w.marks| == 256
  {
    var op := P[w.p];
    if Consumes(op) then
      if op == ANYCHAR && w.nullable then w.(p := |P|, stack := [], marks := Mark(P, w.p, w.marks))
      else w.(p := |P|, pathNull := false, marks := Mark(P, w.p, w.marks))
    else if op == ON_FAILURE_JUMP then
      var x := Target(P, w.p);
      if 0 <= x < |P| then w.(p := w.p + 3, stack := w.stack + [x])
      else w.(p := w.p + 3, nullable := true)
    else if IsJump(op) then Follow(P, w)
    else w.(p := w.p + InsLen(P, w.p))
  }

  // ----- it ends -----

  function StackWeight(P: Code, stack: seq<nat>): nat
    decreases |stack|
  {
    if stack == [] then 0
    else StackWeight(P, stack[..|stack| - 1]) + Ahead(P, stack[|stack| - 1])
  }

  function Ahead(P: Code, a: nat): (r: nat)
    ensures r >= 1
  {
    if a < |P| then Pow2Positive(|P| - a); Pow2(|P| - a) else 1
  }

  lemma Pow2Positive(k: nat)
    ensures Pow2(k) >= 1
  {
  }

  function WalkWeight(P: Code, w: Walk): nat {
    StackWeight(P, w.stack) + Ahead(P, w.p)
  }

  lemma {:induction false} Pow2Less(j: nat, k: nat)
    requires j < k
    ensures 2 * Pow2(j) <= Pow2(k)
    decreases k
  {
    if j + 1 < k {
      Pow2Less(j, k - 1);
    }
    Pow2Positive(k - 1);
  }

  lemma Forward(P: Code, a: nat, b: nat)
    requires a < |P| && a < b <= |P|
    ensures 2 * Ahead(P, b) <= Ahead(P, a)
  {
    Pow2Less(|P| - b, |P| - a);
    if b == |P| {
      Pow2Positive(|P| - a - 1);
    }
  }

  lemma PushWeight(P: Code, stack: seq<nat>, x: nat)
    ensures StackWeight(P, stack + [x]) == StackWeight(P, stack) + Ahead(P, x)
  {
    assert (stack + [x])[..|stack|] == stack;
  }

  // ----- what it keeps -----

  ghost predicate Ready(P: Code) {
    WellFormedCode(P) && Quiet(P, 0, |P|, true)
  }

  // Nothing has been noted that is not so.
  ghost predicate Right(P: Code, w: Walk) {
    && |w.marks| == 256 && Place(P, w.p)
    && (if w.pathNull then Reached(P, w.p) else w.p == |P|)
    && (forall x | x in w.stack :: Start(P, x) && Reached(P, x))
    && (w.nullable ==> Nullable(P))
    && forall c: byte :: w.marks[c] ==> First(P, c)
  }

  // x has been visited, or will be.
  predicate Seen(P: Code, w: Walk, V: set<nat>, x: int) {
    x >= 0 && (x in V || x in w.stack || (x == w.p && w.pathNull))
  }

  // So it has, or it is the head of a loop whose body has been visited.
  predicate Handled(P: Code, w: Walk, V: set<nat>, x: int) {
    || Seen(P, w, V, x)
    || (&& 0 <= x && x + 3 <= |P| && P[x] == ON_FAILURE_JUMP && x + 3 in V
        && Seen(P, w, V, Target(P, x)))
  }

  // What the instruction at x, visited before, has been found to lead to.
  ghost predicate Explored(P: Code, w: Walk, V: set<nat>, x: nat)
    requires |w.marks| == 256
  {
    && Start(P, x)
    && if Consumes(P[x]) then forall c: byte :: CanStart(P, x, c) ==> w.marks[c]
       else forall y | y in Edges(P, x) :: Handled(P, w, V, y)
  }

  // A loop that has been entered has been entered at its body.
  ghost predicate ByBody(P: Code, w: Walk, V: set<nat>) {
    forall m: nat, x: nat | IsEnd(P, m) && Seen(P, w, V, x) && Head(P, m) + 3 < x <= m :: Head(P, m) + 3 in V
  }

  ghost predicate Complete(P: Code, w: Walk, V: set<nat>)
    requires |w.marks| == 256
  {
    && Handled(P, w, V, 0)
    && (forall x | x in V :: Explored(P, w, V, x))
    && ByBody(P, w, V)
  }

  // Once the pattern is known to match nothing the marks do not matter.
  ghost predicate WalkInv(P: Code, w: Walk, V: set<nat>) {
    Right(P, w) && (w.nullable || Complete(P, w, V))
  }

  // ----- where well-formed code leads -----

  lemma ScanPlace(P: Code, x: int)
    requires WellFormedCode(P) && 0 <= x <= |P| && Scan(P, 0, x)
    ensures Place(P, x)
  {
    hide Closed, LoopShape, Entered;
    if x < |P| {
      ScanNext(P, 0, x, |P|);
    }
  }

  lemma EdgeTo(P: Code, a: nat, x: int)
    requires WellFormedCode(P) && Start(P, a) && x in Edges(P, a)
    ensures Place(P, x) && (IsBack(P[a]) || a + 3 <= x || !IsJump(P[a]))
  {
    hide LoopShape, Entered, Edges;
    assert Closed(P, 0, |P|, a);
    ScanPlace(P, x);
    if IsJump(P[a]) && !IsBack(P[a]) {
      ScanNext(P, 0, a, x);
    }
  }

  lemma LoopAt(P: Code, m: nat)
    requires WellFormedCode(P) && IsEnd(P, m)
    ensures
      var l := Head(P, m);
      && l >= 0 && Start(P, l) && P[l] == ON_FAILURE_JUMP && l + 3 <= m && m + 3 <= |P|
      && Target(P, l) == m + 3 && Target(P, m) == l && Edges(P, m) == {l} && Edges(P, l) == {l + 3, m + 3}
      && Place(P, m + 3)
  {
    hide Closed, Entered;
    assert LoopShape(P, 0, |P|, m);
    var l := Head(P, m);
    ScanNext(P, 0, l, m);
    EdgeTo(P, l, m + 3);
  }

  // Into a loop, past the start of its body, y is reached only from inside the loop.
  ghost predicate FromInside(P: Code, a: nat, y: int) {
    forall m: nat | IsEnd(P, m) && Head(P, m) + 3 < y <= m :: Head(P, m) + 3 <= a <= m
  }

  lemma EdgeFromInside(P: Code, a: nat, y: int)
    requires WellFormedCode(P) && Start(P, a) && y in Edges(P, a)
    ensures FromInside(P, a, y)
  {
    hide Closed, LoopShape, Edges;
    forall m: nat | IsEnd(P, m) && Head(P, m) + 3 < y <= m
      ensures Head(P, m) + 3 <= a <= m
    {
      assert Entered(P, 0, |P|, m);
    }
  }

  // The way out of a loop, taken from its end.
  lemma ExitFromInside(P: Code, a: nat)
    requires WellFormedCode(P) && IsEnd(P, a)
    ensures FromInside(P, a, a + 3)
  {
    hide WellFormedCode, IsEnd, Head;
    LoopAt(P, a);
    EdgeFromInside(P, Head(P, a), a + 3);
  }

  lemma ReachedExit(P: Code, m: nat)
    requires WellFormedCode(P) && IsEnd(P, m) && Reached(P, m)
    ensures Reached(P, m + 3)
  {
    hide WellFormedCode, Reached;
    LoopAt(P, m);
    ReachedNext(P, m, Head(P, m));
    ReachedNext(P, Head(P, m), m + 3);
  }

  // ----- one step keeps it -----

  lemma KeepComplete(P: Code, w: Walk, V: set<nat>, w': Walk, y1: int, y2: int)
    requires |w.marks| == 256 == |w'.marks| && Complete(P, w, V) && w.pathNull
    requires forall c: byte :: w.marks[c] ==> w'.marks[c]
    requires forall x | Seen(P, w, V, x) :: Seen(P, w', V + {w.p}, x)
    requires forall x | Seen(P, w', V + {w.p}, x) :: Seen(P, w, V, x) || x == y1 || x == y2
    requires FromInside(P, w.p, y1) && FromInside(P, w.p, y2)
    requires Explored(P, w', V + {w.p}, w.p)
    ensures Complete(P, w', V + {w.p})
  {
    hide Seen, Edges, IsEnd, Head, StartIn, CanStart;
    var V' := V + {w.p};
    forall x | Handled(P, w, V, x)
      ensures Handled(P, w', V', x)
    {
    }
    forall x | x in V
      ensures Explored(P, w', V', x)
    {
      assert Explored(P, w, V, x);
    }
    KeepByBody(P, w, V, w', y1, y2);
  }

  lemma KeepByBody(P: Code, w: Walk, V: set<nat>, w': Walk, y1: int, y2: int)
    requires ByBody(P, w, V) && w.pathNull
    requires forall x | Seen(P, w', V + {w.p}, x) :: Seen(P, w, V, x) || x == y1 || x == y2
    requires FromInside(P, w.p, y1) && FromInside(P, w.p, y2)
    ensures ByBody(P, w', V + {w.p})
  {
    hide IsEnd, Head;
    var V' := V + {w.p};
    assert Seen(P, w, V, w.p);
    forall m: nat, x: nat | IsEnd(P, m) && Seen(P, w', V', x) && Head(P, m) + 3 < x <= m
      ensures Head(P, m) + 3 in V'
    {
      if !Seen(P, w, V, x) {
        assert Head(P, m) + 3 <= w.p <= m;
      }
    }
  }

  lemma Eaten(P: Code, w: Walk, V: set<nat>)
    requires Ready(P) && WalkInv(P, w, V) && w.p < |P| && Consumes(P[w.p])
    ensures InsLen(P, w.p) > 0 && WalkInv(P, OneStep(P, w), V + {w.p})
  {
    hide WellFormedCode, Quiet, Complete, Explored, FromInside, First, Edges, CanStart, Reached;
    var w' := OneStep(P, w);
    forall c: byte | w'.marks[c]
      ensures First(P, c)
    {
      if !w.marks[c] {
        assert StartsWith(P, w.p, c);
        FirstAt(P, w.p, c);
      }
    }
    if !w'.nullable {
      FromSelf(P, w.p);
      EatenExplored(P, w', V + {w.p}, w.p);
      KeepComplete(P, w, V, w', w.p, w.p);
    }
  }

  lemma FirstAt(P: Code, a: nat, c: byte)
    requires StartsWith(P, a, c)
    ensures First(P, c)
  {
  }

  lemma FromSelf(P: Code, a: nat)
    ensures FromInside(P, a, a)
  {
  }

  lemma EatenExplored(P: Code, w: Walk, V: set<nat>, a: nat)
    requires |w.marks| == 256 && Start(P, a) && Consumes(P[a])
    requires forall c: byte :: CanStart(P, a, c) ==> w.marks[c]
    ensures Explored(P, w, V, a)
  {
  }

  // A step to one other place, that the instruction leads to.
  lemma Stepped(P: Code, w: Walk, V: set<nat>, y: nat)
    requires Ready(P) && WalkInv(P, w, V) && w.p < |P| && !Consumes(P[w.p])
    requires Start(P, w.p) && Edges(P, w.p) == {y}
    ensures WalkInv(P, w.(p := y), V + {w.p})
  {
    hide WellFormedCode, Quiet, Complete, FromInside, First, Edges, CanStart, Reached, Nullable, StartIn;
    var w' := w.(p := y);
    EdgeTo(P, w.p, y);
    ReachedNext(P, w.p, y);
    EdgeFromInside(P, w.p, y);
    if !w'.nullable {
      KeepComplete(P, w, V, w', y, y);
    }
  }

  lemma ForkEdges(P: Code, a: nat)
    requires WellFormedCode(P) && Start(P, a) && P[a] == ON_FAILURE_JUMP && Reached(P, a)
    ensures
      var x := Target(P, a);
      && InsLen(P, a) == 3 && a + 3 <= x && Edges(P, a) == {a + 3, x}
      && Place(P, a + 3) && Place(P, x) && Reached(P, a + 3) && Reached(P, x)
  {
    var x := Target(P, a);
    assert Edges(P, a) == {a + 3, x};
    hide WellFormedCode, Edges, Reached, StartIn;
    EdgeTo(P, a, a + 3);
    EdgeTo(P, a, x);
    ReachedNext(P, a, a + 3);
    ReachedNext(P, a, x);
  }

  lemma ForkRight(P: Code, w: Walk)
    requires Ready(P) && Right(P, w) && w.p < |P| && P[w.p] == ON_FAILURE_JUMP
    ensures
      var x := Target(P, w.p);
      && w.pathNull && InsLen(P, w.p) == 3 && w.p + 3 <= x && Start(P, w.p) && Right(P, OneStep(P, w))
      && Edges(P, w.p) == {w.p + 3, x}
      && (x < |P| || OneStep(P, w).nullable)
  {
    hide WellFormedCode, Quiet, First, Edges, CanStart, Reached, StartIn, Target, InsLen;
    ForkEdges(P, w.p);
    PlaceEnd(P, Target(P, w.p));
  }

  lemma Forked(P: Code, w: Walk, V: set<nat>)
    requires Ready(P) && WalkInv(P, w, V) && w.p < |P| && P[w.p] == ON_FAILURE_JUMP
    ensures InsLen(P, w.p) == 3 && w.p + 3 <= Target(P, w.p) && WalkInv(P, OneStep(P, w), V + {w.p})
  {
    ForkRight(P, w);
    hide WellFormedCode, Quiet, Complete, FromInside, Edges, StartIn, Explored, Seen, Right, Target, InsLen;
    var a := w.p;
    var x := Target(P, a);
    EdgeFromInside(P, a, a + 3);
    EdgeFromInside(P, a, x);
    var w' := OneStep(P, w);
    if !w'.nullable {
      ForkSeen(P, w, V);
      ForkExplored(P, w', V + {a}, a);
      KeepComplete(P, w, V, w', a + 3, x);
    }
  }

  lemma ForkSeen(P: Code, w: Walk, V: set<nat>)
    requires w.p + 3 <= |P| && InsLen(P, w.p) == 3 && P[w.p] == ON_FAILURE_JUMP && |w.marks| == 256
    requires w.pathNull && 0 <= Target(P, w.p) < |P|
    ensures
      var w' := OneStep(P, w);
      var V' := V + {w.p};
      && (forall y | Seen(P, w, V, y) :: Seen(P, w', V', y))
      && (forall y | Seen(P, w', V', y) :: Seen(P, w, V, y) || y == w.p + 3 || y == Target(P, w.p))
      && Seen(P, w', V', w.p + 3) && Seen(P, w', V', Target(P, w.p))
  {
  }

  lemma ForkExplored(P: Code, w: Walk, V: set<nat>, a: nat)
    requires |w.marks| == 256 && Start(P, a) && P[a] == ON_FAILURE_JUMP
    requires Seen(P, w, V, a + 3) && Seen(P, w, V, Target(P, a))
    ensures Explored(P, w, V, a)
  {
  }

  // At the end of a loop the walk goes on behind it.
  lemma LoopStep(P: Code, w: Walk)
    requires Ready(P) && Right(P, w) && w.p < |P| && IsBack(P[w.p])
    ensures Start(P, w.p) && IsEnd(P, w.p) && w.pathNull
    ensures
      var w' := OneStep(P, w);
      && w' == w.(p := w.p + 3, stack := w'.stack) && Right(P, w')
      && (w'.stack == w.stack ||
            (w.stack != [] && w.stack[|w.stack| - 1] == w.p + 3 && w'.stack == w.stack[..|w.stack| - 1]))
  {
    hide InsLen, Target, MapHas;
    LoopAt(P, w.p);
    hide WellFormedCode, Quiet, First, Edges, Nullable, Extract, Reached, LoopShape, Scan, CanStart;
    ReachedExit(P, w.p);
    assert OneStep(P, w) == Follow(P, w);
  }

  lemma LoopSeen(P: Code, w: Walk, V: set<nat>, w': Walk)
    requires w.pathNull && w' == w.(p := w.p + 3, stack := w'.stack)
    requires w'.stack == w.stack ||
      (w.stack != [] && w.stack[|w.stack| - 1] == w.p + 3 && w'.stack == w.stack[..|w.stack| - 1])
    ensures forall y | Seen(P, w, V, y) :: Seen(P, w', V + {w.p}, y)
    ensures forall y | Seen(P, w', V + {w.p}, y) :: Seen(P, w, V, y) || y == w.p + 3 || y == w.p
    ensures Seen(P, w', V + {w.p}, w.p + 3)
  {
    forall y | Seen(P, w, V, y)
      ensures Seen(P, w', V + {w.p}, y)
    {
      if y in w.stack && w'.stack != w.stack && y != w.p + 3 {
        var k :| 0 <= k < |w.stack| && w.stack[k] == y;
        assert w'.stack[k] == y;
      }
    }
  }

  lemma Looped(P: Code, w: Walk, V: set<nat>)
    requires Ready(P) && WalkInv(P, w, V) && w.p < |P| && IsBack(P[w.p])
    ensures WalkInv(P, OneStep(P, w), V + {w.p})
  {
    var m := w.p;
    LoopStep(P, w);
    hide WellFormedCode, Quiet, Complete, FromInside, First, Edges, CanStart, Reached, Nullable, StartIn, Head, IsEnd, Explored, OneStep, Right, Seen;
    LoopAt(P, m);
    ExitFromInside(P, m);
    FromSelf(P, m);
    var w' := OneStep(P, w);
    if !w'.nullable {
      var V' := V + {m};
      BodySeen(P, w, V, m);
      LoopSeen(P, w, V, w');
      assert Handled(P, w', V', Head(P, m));
      LoopExplored(P, w', V', m);
      KeepComplete(P, w, V, w', m + 3, m);
    }
  }

  // The end of a loop is reached through its body.
  lemma BodySeen(P: Code, w: Walk, V: set<nat>, m: nat)
    requires |w.marks| == 256 && Complete(P, w, V) && w.p == m && w.pathNull && IsEnd(P, m) && Head(P, m) + 3 <= m
    ensures Head(P, m) + 3 in V + {m}
  {
    hide Explored, Handled;
    assert Seen(P, w, V, m);
  }

  lemma LoopExplored(P: Code, w: Walk, V: set<nat>, m: nat)
    requires |w.marks| == 256 && Start(P, m) && IsBack(P[m]) && Edges(P, m) == {Head(P, m)}
    requires Handled(P, w, V, Head(P, m))
    ensures Explored(P, w, V, m)
  {
  }

  // Jumps forward, and instructions that do nothing.
  lemma Passed(P: Code, w: Walk, V: set<nat>)
    requires Ready(P) && WalkInv(P, w, V) && w.p < |P|
    requires var op := P[w.p]; !Consumes(op) && op != ON_FAILURE_JUMP && !IsBack(op)
    ensures InsLen(P, w.p) > 0 && OneStep(P, w).stack == w.stack && w.p < OneStep(P, w).p
    ensures WalkInv(P, OneStep(P, w), V + {w.p})
  {
    var a := w.p;
    assert Start(P, a);
    var y := if IsJump(P[a]) then Target(P, a) else a + InsLen(P, a);
    assert Edges(P, a) == {y};
    EdgeTo(P, a, y);
    if IsJump(P[a]) {
      assert y == a + 3 ==> EmptyJump(P, a);
    }
    hide WellFormedCode, Quiet, Complete, First, Edges, CanStart, Reached, Nullable, StartIn, Right;
    assert OneStep(P, w) == w.(p := y);
    Stepped(P, w, V, y);
  }

  // Every step keeps the walk right, and there are finitely many.
  lemma StepKeeps(P: Code, w: Walk, V: set<nat>)
    requires Ready(P) && WalkInv(P, w, V) && w.p < |P|
    ensures InsLen(P, w.p) > 0 && WalkInv(P, OneStep(P, w), V + {w.p})
    ensures WalkWeight(P, OneStep(P, w)) < WalkWeight(P, w)
  {
    hide Complete, First, Edges, CanStart, Reached, Nullable, WellFormedCode, Quiet, Ahead, OneStep, Target;
    var op := P[w.p];
    if Consumes(op) {
      Eaten(P, w, V);
      EatenWeight(P, w);
    } else if op == ON_FAILURE_JUMP {
      Forked(P, w, V);
      ForkedWeight(P, w);
    } else if IsBack(op) {
      Looped(P, w, V);
      LoopStep(P, w);
      LoopAt(P, w.p);
      Forward(P, w.p, w.p + 3);
    } else {
      Passed(P, w, V);
      Forward(P, w.p, OneStep(P, w).p);
    }
  }

  lemma EatenWeight(P: Code, w: Walk)
    requires w.p < |P| && InsLen(P, w.p) > 0 && |w.marks| == 256 && Consumes(P[w.p])
    ensures WalkWeight(P, OneStep(P, w)) < WalkWeight(P, w)
  {
    Forward(P, w.p, |P|);
  }

  lemma ForkedWeight(P: Code, w: Walk)
    requires w.p < |P| && InsLen(P, w.p) == 3 && |w.marks| == 256 && P[w.p] == ON_FAILURE_JUMP
    requires w.p + 3 <= Target(P, w.p)
    ensures WalkWeight(P, OneStep(P, w)) < WalkWeight(P, w)
  {
    hide Ahead;
    var x := Target(P, w.p);
    Forward(P, w.p, w.p + 1);
    Forward(P, w.p + 1, w.p + 3);
    if x < |P| {
      PushWeight(P, w.stack, x);
      if x != w.p + 3 {
        Forward(P, w.p + 3, x);
      }
    }
  }

  lemma NextKeeps(P: Code, w: Walk, V: set<nat>)
    requires Ready(P) && WalkInv(P, w, V) && w.p == |P| && w.stack != []
    ensures WalkInv(P, NextWay(w), V)
    ensures WalkWeight(P, NextWay(w)) < WalkWeight(P, w)
  {
    hide First, Edges, CanStart, Reached, WellFormedCode, Quiet, StartIn, Complete;
    var w' := NextWay(w);
    assert w'.p in w.stack;
    if !w'.nullable {
      NextSeen(P, w, V);
      NextComplete(P, w, V);
    }
  }

  lemma NextSeen(P: Code, w: Walk, V: set<nat>)
    requires w.stack != [] && !w.pathNull
    ensures forall x :: Seen(P, NextWay(w), V, x) <==> Seen(P, w, V, x)
  {
    var w' := NextWay(w);
    forall x | x in w.stack
      ensures x == w'.p || x in w'.stack
    {
      var k :| 0 <= k < |w.stack| && w.stack[k] == x;
      assert k < |w.stack| - 1 ==> w'.stack[k] == x;
    }
  }

  lemma NextComplete(P: Code, w: Walk, V: set<nat>)
    requires |w.marks| == 256 && w.stack != [] && !w.pathNull && Complete(P, w, V)
    ensures Complete(P, NextWay(w), V)
  {
    NextSeen(P, w, V);
    hide Seen, Edges, IsEnd, Head, StartIn, CanStart;
    var w' := NextWay(w);
    forall x | x in V
      ensures Explored(P, w', V, x)
    {
      assert Explored(P, w, V, x);
    }
  }

  // ----- what is found -----

  function Begun(): (w: Walk) {
    Walk(0, [], true, false, seq(256, _ => false))
  }

  lemma BegunInv(P: Code)
    requires Ready(P)
    ensures WalkInv(P, Begun(), {})
  {
    ScanPlace(P, 0);
    ReachedZero(P);
    forall m: nat, x: nat | IsEnd(P, m) && Seen(P, Begun(), {}, x) && Head(P, m) + 3 < x <= m
      ensures false
    {
      LoopAt(P, m);
    }
  }

  // With nothing left to visit, everything reached has been handled.
  lemma {:induction false} AllHandled(P: Code, w: Walk, V: set<nat>, b: int, n: nat)
    requires |w.marks| == 256 && Complete(P, w, V) && w.p == |P| && w.stack == [] && !w.pathNull
    requires ReachedIn(P, b, n)
    ensures Handled(P, w, V, b) && b < |P|
    decreases n
  {
    if b != 0 {
      var a: nat :| a < |P| && !Consumes(P[a]) && b in Edges(P, a) && ReachedIn(P, a, n - 1);
      AllHandled(P, w, V, a, n - 1);
      hide ReachedIn, Complete, StartIn;
      if a in V {
        VisitedExplored(P, w, V, a);
      }
    }
    HandledBelow(P, w, V, b);
  }

  lemma VisitedExplored(P: Code, w: Walk, V: set<nat>, a: nat)
    requires |w.marks| == 256 && Complete(P, w, V) && a in V
    ensures Explored(P, w, V, a)
  {
  }

  lemma HandledBelow(P: Code, w: Walk, V: set<nat>, b: int)
    requires |w.marks| == 256 && Complete(P, w, V) && w.stack == [] && !w.pathNull && Handled(P, w, V, b)
    ensures b < |P|
  {
    if b in V {
      VisitedExplored(P, w, V, b);
    }
  }

  // The end of the walk: the pattern can match nothing exactly when it has been found to, and
  // otherwise the characters marked are exactly those a match can begin with.
  lemma WalkDone(P: Code, w: Walk, V: set<nat>)
    requires Ready(P) && WalkInv(P, w, V) && w.p == |P| && w.stack == []
    ensures w.nullable || w.pathNull <==> Nullable(P)
    ensures !Nullable(P) ==> forall c: byte :: w.marks[c] <==> First(P, c)
  {
    hide Complete, Handled, CanStart;
    if !w.nullable && !w.pathNull {
      if Nullable(P) {
        var n: nat :| ReachedIn(P, |P|, n);
        AllHandled(P, w, V, |P|, n);
      }
      forall c: byte | First(P, c)
        ensures w.marks[c]
      {
        var a: nat :| StartsWith(P, a, c);
        var n: nat :| ReachedIn(P, a, n);
        AllHandled(P, w, V, a, n);
        EaterVisited(P, w, V, a, c);
      }
    }
  }

  lemma EaterVisited(P: Code, w: Walk, V: set<nat>, a: nat, c: byte)
    requires |w.marks| == 256 && Complete(P, w, V) && w.stack == [] && !w.pathNull && Handled(P, w, V, a)
    requires StartsWith(P, a, c)
    ensures w.marks[c]
  {
    VisitedExplored(P, w, V, a);
  }

  // ----- the matcher's rewriting does not matter -----

  // The same instructions, but for which kind of backward jump ends a loop.
  ghost predicate SameShape(P: Code, Q: Code) {
    |Q| == |P| && forall a: nat | Start(P, a) :: ShapeAt(P, Q, a)
  }

  predicate ShapeAt(P: Code, Q: Code, a: nat)
    requires a < |P| == |Q|
  {
    && InsLen(Q, a) == InsLen(P, a) && Edges(Q, a) == Edges(P, a)
    && (if IsBack(P[a]) then IsBack(Q[a]) && a + 3 <= |P| && Target(Q, a) == Target(P, a)
        else Q[a..a + InsLen(P, a)] == P[a..a + InsLen(P, a)])
  }

  lemma RewrittenShape(P: Code, Q: Code)
    requires Program(P) && Rewritten(P, Q)
    ensures SameShape(P, Q)
  {
    hide Program, Rewritten, ShapeAt;
    RewrittenLength(P, Q);
    forall a: nat | Start(P, a)
      ensures ShapeAt(P, Q, a)
    {
      RewrittenAt(P, Q, a);
    }
  }

  lemma RewrittenAt(P: Code, Q: Code, a: nat)
    requires Program(P) && Rewritten(P, Q) && Start(P, a)
    ensures a < |P| == |Q| && ShapeAt(P, Q, a)
  {
    hide Program, Rewritten;
    RewrittenLength(P, Q);
    SameOp(P, Q, a);
    if !IsBack(P[a]) {
      SameIns(P, Q, a);
      SameEdges(P, Q, a);
    }
  }

  // The same bytes lead to the same places.
  lemma SameEdges(P: Code, Q: Code, a: nat)
    requires a < |P| == |Q| && InsLen(Q, a) == InsLen(P, a) > 0 && Q[a..a + InsLen(P, a)] == P[a..a + InsLen(P, a)]
    ensures Edges(Q, a) == Edges(P, a)
  {
    var n := InsLen(P, a);
    FirstBytes(P, Q, a, n);
  }

  lemma FirstBytes(P: Code, Q: Code, a: nat, n: nat)
    requires a + n <= |P| && a + n <= |Q| && Q[a..a + n] == P[a..a + n]
    ensures forall x | a <= x < a + n :: Q[x] == P[x]
  {
    forall x | a <= x < a + n
      ensures Q[x] == P[x]
    {
      assert Q[a..a + n][x - a] == P[a..a + n][x - a];
    }
  }

  lemma {:induction false} ScanShape(P: Code, Q: Code, s: nat, x: int)
    requires SameShape(P, Q) && Scan(P, 0, s) && Scan(P, s, |P|) && s <= x <= |P|
    ensures Scan(Q, s, x) <==> Scan(P, s, x)
    decreases |P| - s
  {
    hide Edges, Target, InsLen;
    if s < |P| {
      assert Start(P, s);
      ScanStep(P, 0, s);
      var n := s + InsLen(P, s);
      ScanUp(P, n, |P|);
      if n <= x {
        ScanShape(P, Q, n, x);
      } else if s != x {
        if Scan(P, n, x) {
          ScanUp(P, n, x);
        }
        if Scan(Q, n, x) {
          ScanUp(Q, n, x);
        }
      }
    }
  }

  lemma StartShape(P: Code, Q: Code, a: nat)
    requires SameShape(P, Q) && Scan(P, 0, |P|)
    ensures Start(Q, a) <==> Start(P, a)
  {
    hide Edges, Target, InsLen;
    if a < |P| {
      ScanShape(P, Q, 0, a);
      if Scan(P, 0, a) {
        ScanNext(P, 0, a, |P|);
      }
    }
  }

  lemma FirstByte(P: Code, Q: Code, a: nat, n: nat)
    requires n > 0 && a + n <= |P| == |Q| && Q[a..a + n] == P[a..a + n]
    ensures forall x | a <= x < a + n :: Q[x] == P[x]
  {
    forall x | a <= x < a + n
      ensures Q[x] == P[x]
    {
      assert Q[x] == Q[a..a + n][x - a] && P[x] == P[a..a + n][x - a];
    }
  }

  lemma ShapeOp(P: Code, Q: Code, a: nat)
    requires SameShape(P, Q) && Start(P, a)
    ensures InsLen(Q, a) == InsLen(P, a) > 0 && Edges(Q, a) == Edges(P, a)
    ensures if IsBack(P[a]) then IsBack(Q[a]) else Q[a] == P[a]
    ensures Consumes(P[a]) ==> forall c: byte :: CanStart(Q, a, c) <==> CanStart(P, a, c)
    ensures InsLen(P, a) == 3 && IsJump(P[a]) ==> Target(Q, a) == Target(P, a)
    ensures EmptyJump(Q, a) <==> EmptyJump(P, a)
  {
    if !IsBack(P[a]) {
      FirstByte(P, Q, a, InsLen(P, a));
      if P[a] == CHARSET || P[a] == CHARSET_NOT {
        assert P[a + 2..a + 2 + P[a + 1]] == Q[a + 2..a + 2 + P[a + 1]];
      }
    }
  }

  lemma EndShape(P: Code, Q: Code, m: nat)
    requires SameShape(P, Q) && WellFormedCode(P)
    ensures IsEnd(Q, m) <==> IsEnd(P, m)
    ensures IsEnd(P, m) ==> Head(Q, m) == Head(P, m)
  {
    hide InsLen, Edges, Target, Closed, LoopShape, Entered;
    StartShape(P, Q, m);
    if Start(P, m) {
      ShapeOp(P, Q, m);
      if IsBack(P[m]) {
        LoopAt(P, m);
      }
    }
  }

  // Rewritten code is as fit for a walk as the code before.
  lemma ReadyShape(P: Code, Q: Code)
    requires SameShape(P, Q) && Ready(P)
    ensures Ready(Q)
  {
    hide InsLen, Edges, Target, EmptyJump, LoopShape, Entered;
    ScanShape(P, Q, 0, |P|);
    forall a: nat | Start(Q, a)
      ensures Closed(Q, 0, |Q|, a)
    {
      StartShape(P, Q, a);
      ShapeOp(P, Q, a);
      assert Closed(P, 0, |P|, a);
      forall x | x in Edges(Q, a)
        ensures Scan(Q, 0, x)
      {
        ScanShape(P, Q, 0, x);
      }
    }
    forall m: nat | IsEnd(Q, m)
      ensures LoopShape(Q, 0, |Q|, m) && Entered(Q, 0, |Q|, m)
    {
      EndShape(P, Q, m);
      LoopShapeShape(P, Q, m);
      EnteredShape(P, Q, m);
    }
    forall a: nat | Start(Q, a) && EmptyJump(Q, a)
      ensures a + 3 == |Q| || (a + 3 < |Q| && Q[a + 3] != ON_FAILURE_JUMP)
    {
      StartShape(P, Q, a);
      ShapeOp(P, Q, a);
      if a + 3 < |P| {
        EmptyShape(P, Q, a);
      }
    }
  }

  lemma EmptyShape(P: Code, Q: Code, a: nat)
    requires SameShape(P, Q) && Ready(P) && Start(P, a) && EmptyJump(P, a) && a + 3 < |P|
    ensures Q[a + 3] != ON_FAILURE_JUMP
  {
    var y := a + 3;
    assert y in Edges(P, a);
    EdgeTo(P, a, y);
    ShapeOp(P, Q, y);
  }

  lemma LoopShapeShape(P: Code, Q: Code, m: nat)
    requires SameShape(P, Q) && WellFormedCode(P) && IsEnd(P, m) && IsEnd(Q, m) && Head(Q, m) == Head(P, m)
    ensures LoopShape(Q, 0, |Q|, m)
  {
    hide WellFormedCode, InsLen;
    LoopAt(P, m);
    var l := Head(P, m);
    ShapeOp(P, Q, l);
    WholeScan(P);
    ScanShape(P, Q, 0, l);
  }

  lemma WholeScan(P: Code)
    requires WellFormedCode(P)
    ensures Scan(P, 0, |P|)
  {
  }

  lemma EnteredShape(P: Code, Q: Code, m: nat)
    requires SameShape(P, Q) && WellFormedCode(P) && IsEnd(P, m) && IsEnd(Q, m) && Head(Q, m) == Head(P, m)
    ensures Entered(Q, 0, |Q|, m)
  {
    hide InsLen, Edges, Closed, LoopShape, Head;
    var b := Head(Q, m) + 3;
    forall a: nat, x | Start(Q, a) && x in Edges(Q, a) && b <= x <= m
      ensures b <= a <= m || (x == b && (a == b - 3 || Q[a] == DUMMY_FAILURE_JUMP))
    {
      StartShape(P, Q, a);
      ShapeOp(P, Q, a);
      assert Entered(P, 0, |P|, m);
    }
  }

  lemma {:induction false} ReachedShape(P: Code, Q: Code, b: int, n: nat)
    requires SameShape(P, Q) && WellFormedCode(P) && ReachedIn(P, b, n)
    ensures ReachedIn(Q, b, n) && Place(P, b)
    decreases n
  {
    if b == 0 {
      ScanPlace(P, 0);
    } else {
      var a: nat :| a < |P| && !Consumes(P[a]) && b in Edges(P, a) && ReachedIn(P, a, n - 1);
      hide WellFormedCode, InsLen, Edges;
      ReachedShape(P, Q, a, n - 1);
      ShapeOp(P, Q, a);
      EdgeTo(P, a, b);
    }
  }

  lemma ShapeBack(P: Code, Q: Code)
    requires SameShape(P, Q) && WellFormedCode(P)
    ensures SameShape(Q, P)
  {
    WellFormedScan(P);
    hide WellFormedCode, ShapeAt;
    forall a: nat | Start(Q, a)
      ensures ShapeAt(Q, P, a)
    {
      StartShape(P, Q, a);
      ShapeAtBack(P, Q, a);
    }
  }

  lemma WellFormedScan(P: Code)
    requires WellFormedCode(P)
    ensures Scan(P, 0, |P|)
  {
  }

  lemma ShapeAtBack(P: Code, Q: Code, a: nat)
    requires SameShape(P, Q) && Start(P, a)
    ensures a < |P| == |Q| && ShapeAt(Q, P, a)
  {
    assert ShapeAt(P, Q, a);
    hide Edges, Target;
    if !IsBack(P[a]) {
      FirstBytes(P, Q, a, InsLen(P, a));
    }
  }

  lemma FirstShape(P: Code, Q: Code, c: byte)
    requires SameShape(P, Q) && WellFormedCode(P) && First(P, c)
    ensures First(Q, c)
  {
    var a: nat :| StartsWith(P, a, c);
    var n: nat :| ReachedIn(P, a, n);
    hide WellFormedCode, InsLen, Edges;
    ReachedShape(P, Q, a, n);
    ShapeOp(P, Q, a);
    assert StartsWith(Q, a, c);
  }

  lemma NullableShape(P: Code, Q: Code)
    requires SameShape(P, Q) && WellFormedCode(P) && Nullable(P)
    ensures Nullable(Q)
  {
    var n: nat :| ReachedIn(P, |P|, n);
    ReachedShape(P, Q, |P|, n);
  }

  // The fastmap of rewritten code is the fastmap of the code as it was compiled.
  lemma FastmapIgnoresRewriting(P: Code, Q: Code)
    requires Program(P) && Quiet(P, 0, |P|, true) && Rewritten(P, Q)
    ensures Ready(Q) && (Nullable(Q) <==> Nullable(P)) && forall c: byte :: First(Q, c) <==> First(P, c)
  {
    hide WellFormedCode, Simple, Quiet, Nullable, First, Rewritten, SameShape;
    RewrittenShape(P, Q);
    ReadyShape(P, Q);
    ShapeBack(P, Q);
    if Nullable(P) {
      NullableShape(P, Q);
    }
    if Nullable(Q) {
      NullableShape(Q, P);
    }
    forall c: byte
      ensures First(Q, c) <==> First(P, c)
    {
      if First(P, c) {
        FirstShape(P, Q, c);
      }
      if First(Q, c) {
        FirstShape(Q, P, c);
      }
    }
  }
}
