/**
 A compiled pattern in its buffer, and what is done with it: the fastmap, the matcher, which
 rewrites some of the jumps as it goes, and the search.
 */
module RegexPattern {
  import opened Wrappers
  import opened RegexBytes
  import opened RegexSyntax
  import opened RegexGen
  import opened RegexNfa
  import opened RegexBlocks
  import opened RegexQuiet
  import opened RegexVm
  import opened RegexVmProof
  import opened RegexVmRun
  import opened RegexMatch
  import opened RegexFastmap

  class PatternBuffer {
    var buffer: array<byte>
    var used: nat
    var fastmap: array?<bool>       // one entry for each character, if the caller wants one
    var fastmapAccurate: bool
    var canBeNull: bool
    ghost var program: Code         // the code as it was compiled

    // What regcomp leaves: the code, and no fastmap.
    constructor (code: array<byte>, n: nat)
      requires n <= code.Length && Program(code[..n]) && Quiet(code[..n], 0, n, true)
      ensures Valid() && buffer == code && used == n && program == code[..n] && fastmap == null
    {
      buffer, used, fastmap, fastmapAccurate, canBeNull := code, n, null, false, false;
      program := code[..n];
    }

    function Bytes(): Code
      requires used <= buffer.Length
      reads this`buffer, this`used, buffer
    {
      buffer[..used]
    }

    // ----- re_compile_fastmap -----

    // fastmap[p[1]] = 1
    method MarkChar(a: nat)
      requires fastmap != null && fastmap.Length == 256 && a < used <= buffer.Length
      requires InsLen(Bytes(), a) > 0 && buffer[a] == EXACTN
      modifies fastmap
      ensures fastmap[..] == Mark(Bytes(), a, old(fastmap[..]))
    {
      fastmap[buffer[a + 2]] := true;
    }

    // The characters of a set: first its map, from the last bit down.
    method MarkSet(a: nat)
      requires fastmap != null && fastmap.Length == 256 && a < used <= buffer.Length
      requires InsLen(Bytes(), a) > 0 && buffer[a] == CHARSET
      modifies fastmap
      ensures fastmap[..] == Mark(Bytes(), a, old(fastmap[..]))
    {
      var n: int := buffer[a + 1];
      var j := n * 8 - 1;
      while j >= 0
        invariant -1 <= j < n * 8
        invariant forall c: byte :: fastmap[c] <==>
          old(fastmap[..])[c] || (j < c < n * 8 && Bit(buffer[a + 2 + c / 8], c % 8))
      {
        if Bit(buffer[a + 2 + j / 8], j % 8) {
          fastmap[j] := true;
        }
        j := j - 1;
      }
    }

    // The characters beyond the map are in the complement of a set.
    method MarkSetNot(a: nat)
      requires fastmap != null && fastmap.Length == 256 && a < used <= buffer.Length
      requires InsLen(Bytes(), a) > 0 && buffer[a] == CHARSET_NOT
      modifies fastmap
      ensures fastmap[..] == Mark(Bytes(), a, old(fastmap[..]))
    {
      var n: int := buffer[a + 1];
      var j := n * 8;
      while j < 256
        invariant n * 8 <= j <= 256
        invariant forall c: byte :: fastmap[c] <==> old(fastmap[..])[c] || n * 8 <= c < j
      {
        fastmap[j] := true;
        j := j + 1;
      }
      j := n * 8 - 1;
      while j >= 0
        invariant -1 <= j < n * 8
        invariant forall c: byte :: fastmap[c] <==>
          old(fastmap[..])[c] || n * 8 <= c
          || (j < c < n * 8 && !Bit(buffer[a + 2 + c / 8], c % 8))
      {
        if !Bit(buffer[a + 2 + j / 8], j % 8) {
          fastmap[j] := true;
        }
        j := j - 1;
      }
    }

    method MarkAll(a: nat)
      requires fastmap != null && fastmap.Length == 256 && a < used <= buffer.Length
      requires InsLen(Bytes(), a) > 0 && buffer[a] == ANYCHAR
      modifies fastmap
      ensures fastmap[..] == Mark(Bytes(), a, old(fastmap[..]))
    {
      var j := 0;
      while j < 256
        invariant 0 <= j <= 256
        invariant forall c: byte :: fastmap[c] <==> old(fastmap[..])[c] || c < j
      {
        fastmap[j] := true;
        j := j + 1;
      }
    }

    // The number at a, just past the opcode of a jump.
    function NumberAt(a: nat): int
      requires a + 1 < buffer.Length
      reads this`buffer, buffer
    {
      Extract(buffer[a], buffer[a + 1])
    }

    // An empty jump to the end makes the walk look at the byte after the code.
    ghost predicate EndByte()
      requires used <= buffer.Length
      reads this`buffer, this`used, buffer
    {
      JumpsToEnd(Bytes()) ==> used < buffer.Length && buffer[used] != ON_FAILURE_JUMP
    }

    // The jumps other than an on_failure_jump, at q.
    method FollowJump(q: nat, stack: seq<nat>, ghost w: Walk) returns (p: nat, failStack: seq<nat>)
      requires used <= buffer.Length && Ready(Bytes()) && EndByte()
      requires Right(Bytes(), w) && w.p == q < used && w.stack == stack
      requires IsJump(buffer[q]) && buffer[q] != ON_FAILURE_JUMP
      ensures Follow(Bytes(), w) == w.(p := p, stack := failStack)
    {
      hide Ready, WellFormedCode, Quiet, Reached, Nullable, First, Program, MatchEnd, LongestPrefix, NoPrefix,
        InsLen, Extract;
      ghost var P := Bytes();
      assert P[q] == buffer[q] && Start(P, q);
      JumpFacts(P, q);
      assert Target(P, q) == q + 3 + NumberAt(q + 1);
      var j := NumberAt(q + 1);
      p, failStack := q + 3 + j, stack;
      if j > 0 {
        return;
      }
      assert j == 0 ==> EmptyJump(P, q);
      if buffer[p] != ON_FAILURE_JUMP {
        return;
      }
      j := NumberAt(p + 1);
      p := p + 3 + j;
      if failStack != [] && failStack[|failStack| - 1] == p {
        failStack := failStack[..|failStack| - 1];
      }
    }

    // What the instruction at q does to the walk, but for a `.' that ends it.
    method TakeStep(q: nat, stack: seq<nat>, path: bool, ghost w: Walk)
      returns (p: nat, failStack: seq<nat>, pathCanBeNull: bool)
      requires fastmap != null && fastmap.Length == 256
      requires used <= buffer.Length && Ready(Bytes()) && EndByte()
      requires Right(Bytes(), w) && w == Walk(q, stack, path, canBeNull, fastmap[..]) && q < used
      requires InsLen(Bytes(), q) > 0 && !(buffer[q] == ANYCHAR && canBeNull)
      modifies this`canBeNull, fastmap
      ensures Bytes() == old(Bytes())
      ensures Walk(p, failStack, pathCanBeNull, canBeNull, fastmap[..]) == OneStep(Bytes(), w)
    {
      hide Ready, Right, Follow, Mark, Extract;
      ghost var P := Bytes();
      var op := buffer[q];
      assert P[q] == op;
      p, failStack, pathCanBeNull := used, stack, path;
      if op == EXACTN || IsEater(op) {
        if op == EXACTN {
          MarkChar(q);
        } else if op == CHARSET {
          MarkSet(q);
        } else if op == CHARSET_NOT {
          MarkSetNot(q);
        } else {
          MarkAll(q);
        }
        pathCanBeNull := false;
      } else if op == ON_FAILURE_JUMP {
        assert Target(P, q) == q + 3 + NumberAt(q + 1);
        p := q + 3;
        var j := NumberAt(q + 1);
        ForkNonNegative(P, w);
        if p + j < used {
          failStack := failStack + [p + j];
        } else {
          canBeNull := true;
        }
      } else if IsJump(op) {
        p, failStack := FollowJump(q, stack, w);
      } else if IsMemory(op) {
        p := q + 3;
      } else {
        p := q + 1;
      }
    }

    // re_compile_fastmap
    method CompileFastmap()
      requires fastmap != null && fastmap.Length == 256
      requires used <= buffer.Length && Ready(Bytes()) && EndByte()
      modifies this`fastmapAccurate, this`canBeNull, fastmap
      ensures fastmapAccurate && (canBeNull <==> Nullable(Bytes()))
      ensures !canBeNull ==> forall c: byte :: fastmap[c] <==> First(Bytes(), c)
    {
      hide Ready, Complete, OneStep, Nullable, First, Right;
      ghost var P := Bytes();
      ghost var V: set<nat> := {};
      ClearFastmap();
      fastmapAccurate, canBeNull := true, false;
      var p: nat, failStack, pathCanBeNull := 0, [], true;
      BegunInv(P);
      while p != used || failStack != []
        invariant p <= used && Bytes() == P && fastmapAccurate
        invariant WalkInv(P, Walk(p, failStack, pathCanBeNull, canBeNull, fastmap[..]), V)
        decreases WalkWeight(P, Walk(p, failStack, pathCanBeNull, canBeNull, fastmap[..]))
      {
        ghost var w := Walk(p, failStack, pathCanBeNull, canBeNull, fastmap[..]);
        if p == used {
          NextKeeps(P, w, V);
          canBeNull := canBeNull || pathCanBeNull;
          pathCanBeNull := true;
          p, failStack := failStack[|failStack| - 1], failStack[..|failStack| - 1];
        } else {
          StepKeeps(P, w, V);
          if buffer[p] == ANYCHAR && canBeNull {
            MarkAll(p);
            WalkBelow(P, w);
            return;
          }
          p, failStack, pathCanBeNull := TakeStep(p, failStack, pathCanBeNull, w);
          V := V + {w.p};
        }
        WalkBelow(P, Walk(p, failStack, pathCanBeNull, canBeNull, fastmap[..]));
      }
      WalkDone(P, Walk(p, failStack, pathCanBeNull, canBeNull, fastmap[..]), V);
      canBeNull := canBeNull || pathCanBeNull;
    }

    method ClearFastmap()
      requires fastmap != null && fastmap.Length == 256
      modifies fastmap
      ensures fastmap[..] == Begun().marks
    {
      for j := 0 to 256
        invariant forall i | 0 <= i < j :: !fastmap[i]
      {
        fastmap[j] := false;
      }
    }

    // ----- re_match_2_internal -----

    // The buffer holds the program, but for the jumps rewritten so far.
    ghost predicate HoldsProgram()
      reads this`buffer, this`used, this`program, buffer
    {
      used <= buffer.Length && Program(program) && Rewritten(program, Bytes())
    }

    // The exactn at a: its characters against the text from d on.
    method CompareChars(a: nat, t: Text, d: nat) returns (same: bool)
      requires a < used <= buffer.Length && d <= |t| && InsLen(Bytes(), a) > 0 && buffer[a] == EXACTN
      ensures same <==>
        d + buffer[a + 1] <= |t| && t[d..d + buffer[a + 1]] == Bytes()[a + 2..a + 2 + buffer[a + 1]]
    {
      var n: nat := buffer[a + 1];
      for k := 0 to n
        invariant d + k <= |t| && t[d..d + k] == Bytes()[a + 2..a + 2 + k]
      {
        if d + k == |t| {
          return false;
        }
        if t[d + k] != buffer[a + 2 + k] {
          assert t[d + k] == t[d..d + k + 1][k];
          assert d + n <= |t| ==> t[d..d + n][k] != Bytes()[a + 2..a + 2 + n][k];
          return false;
        }
        assert t[d..d + k + 1] == t[d..d + k] + [t[d + k]];
        assert Bytes()[a + 2..a + 2 + k + 1] == Bytes()[a + 2..a + 2 + k] + [buffer[a + 2 + k]];
      }
      return true;
    }

    // The other instructions that match one character.
    method MatchesChar(a: nat, c: byte) returns (matches: bool)
      requires a < used <= buffer.Length && InsLen(Bytes(), a) > 0 && IsEater(buffer[a])
      ensures matches == Eats(Bytes(), a, c)
    {
      if buffer[a] == ANYCHAR {
        return c != 0;
      }
      ghost var P := Bytes();
      var n: nat := buffer[a + 1];
      assert P[a + 2..a + 2 + P[a + 1]] == buffer[a + 2..a + 2 + n];
      var not := buffer[a] == CHARSET_NOT;
      if c < n * 8 && Bit(buffer[a + 2 + c / 8], c % 8) {
        not := !not;
      }
      return not;
    }

    // ----- maybe_pop_jump -----

    // Past the group commands after a loop, and the jumps that begin a `+'.
    method SkipCommands(p: nat) returns (p2: nat)
      requires used <= buffer.Length
      ensures p2 == SkipMemory(Bytes(), p)
    {
      p2 := p;
      while true
        invariant SkipMemory(Bytes(), p2) == SkipMemory(Bytes(), p)
        decreases used - p2
      {
        if p2 + 2 < used && (buffer[p2] == STOP_MEMORY || buffer[p2] == START_MEMORY) {
          p2 := p2 + 3;
        } else if p2 + 6 < used && buffer[p2] == DUMMY_FAILURE_JUMP {
          p2 := p2 + 6;
        } else {
          break;
        }
      }
    }

    // A loop whose body is at b, before the character c.
    method CannotMatch(b: nat, c: byte) returns (apart: bool)
      requires b < used <= buffer.Length && InsLen(Bytes(), b) > 0
      ensures apart == ApartFromChar(Bytes(), b, c)
    {
      if buffer[b] == EXACTN {
        return buffer[b + 2] != c;
      }
      if buffer[b] != CHARSET && buffer[b] != CHARSET_NOT {
        return false;
      }
      var not := buffer[b] == CHARSET_NOT;
      var n: nat := buffer[b + 1];
      if c < n * 8 % 256 && Bit(buffer[b + 2 + c / 8], c % 8) {
        not := !not;
      }
      return !not;
    }

    // A loop whose body is at b, before the set at p2.
    method NoOverlap(b: nat, p2: nat) returns (apart: bool)
      requires b < used <= buffer.Length && InsLen(Bytes(), b) > 0
      requires p2 < used && InsLen(Bytes(), p2) > 0 && buffer[p2] == CHARSET
      ensures apart == ApartFromSet(Bytes(), b, p2)
    {
      ghost var P := Bytes();
      var n: nat := buffer[p2 + 1];
      if buffer[b] == EXACTN {
        var c := buffer[b + 1];
        return !(n * 8 > c && Bit(buffer[p2 + 2 + c / 8], c % 8));
      }
      if buffer[b] != CHARSET && buffer[b] != CHARSET_NOT {
        return false;
      }
      var k: nat := buffer[b + 1];
      if buffer[b] == CHARSET_NOT {
        for idx := 0 to n
          invariant forall x: nat | x < idx :: MapByte(P, p2, x) == 0 || (x < k && Within(MapByte(P, p2, x), MapByte(P, b, x)))
        {
          assert MapByte(P, p2, idx) == buffer[p2 + 2 + idx];
          assert idx < k ==> MapByte(P, b, idx) == buffer[b + 2 + idx];
          if !(buffer[p2 + 2 + idx] == 0 || (idx < k && Within(buffer[p2 + 2 + idx], buffer[b + 2 + idx]))) {
            return false;
          }
        }
        return true;
      }
      var idx := 0;
      while idx < n && idx < k
        invariant idx <= n && idx <= k
        invariant forall x: nat | x < idx :: !Meets(MapByte(P, p2, x), MapByte(P, b, x))
      {
        assert MapByte(P, p2, idx) == buffer[p2 + 2 + idx] && MapByte(P, b, idx) == buffer[b + 2 + idx];
        if Meets(buffer[p2 + 2 + idx], buffer[b + 2 + idx]) {
          break;
        }
        idx := idx + 1;
      }
      return idx == n || idx == k;
    }

    method ShouldPop(m: nat) returns (pops: bool)
      requires HoldsProgram() && IsEnd(program, m)
      ensures pops == Pops(program, m)
    {
      hide Program, Rewritten, ApartFromChar, ApartFromSet, InsLen;
      ghost var P := program;
      ghost var Q := Bytes();
      RewrittenLength(P, Q);
      PopsSame(P, Q, m);
      DecisionPlaces(P, Q, m);
      var p2 := SkipCommands(m + 3);
      if p2 == used {
        return true;
      }
      var b := m + 3 + NumberAt(m + 1) + 3;
      assert b == Head(Q, m) + 3;
      if buffer[p2] == EXACTN {
        pops := CannotMatch(b, buffer[p2 + 2]);
      } else if buffer[p2] == CHARSET {
        pops := NoOverlap(b, p2);
      } else {
        pops := false;
      }
    }

    // One instruction. A match that fails leaves the rest as it was.
    method Execute(t: Text, q: nat, c: nat, stack: seq<FailurePoint>, ghost vm: Vm)
      returns (failed: bool, p: nat, d: nat, failStack: seq<FailurePoint>)
      requires HoldsProgram() && Inv(program, t, vm) && q < used
      requires vm.code == Bytes() && vm.p == q && vm.d == c && vm.stack == stack
      modifies buffer
      ensures buffer[used..] == old(buffer[used..])
      ensures failed ==> Exec(t, vm) == Fails(vm) && Vm(Bytes(), p, d, failStack, vm.best) == vm
      ensures !failed ==> Exec(t, vm) == Next(Vm(Bytes(), p, d, failStack, vm.best))
    {
      hide Program, Rewritten, Inv, InsLen, Exec, Succ, Pops, Eats, IsEater, InvFail, Place, InLoop, AtEnd,
        PopAndJump, Jump, Bit, IsEnd, Head;
      StepFacts(program, t, vm);
      ghost var P := program;
      ghost var Q := vm.code;
      failed, p, d, failStack := false, q, c, stack;
      var op := buffer[q];
      if op == EXACTN {
        var same := CompareChars(q, t, d);
        if same {
          var n: nat := buffer[q + 1];
          p, d := q + 2 + n, d + n;
        }
        failed := !same;
      } else if IsEater(op) {
        if d == |t| {
          failed := true;
        } else {
          var matches := MatchesChar(q, t[d]);
          if matches {
            p, d := if op == ANYCHAR then q + 1 else q + 2 + buffer[q + 1], d + 1;
          }
          failed := !matches;
        }
      } else if op == ON_FAILURE_JUMP {
        failStack := failStack + [Point(q + 3 + NumberAt(q + 1), d)];
        p := q + 3;
      } else if IsBack(op) {
        BackFacts(P, t, vm);
        if op == MAYBE_POP_JUMP {
          var pops := ShouldPop(q);
          buffer[q] := if pops then POP_FAILURE_JUMP else JUMP;
        }
        if buffer[q] == POP_FAILURE_JUMP {
          failStack := failStack[..|failStack| - 1];
        }
        p := q + 3 + NumberAt(q + 1);
      } else {
        OnFacts(P, t, vm);
        if op == DUMMY_FAILURE_JUMP || op == PUSH_DUMMY_FAILURE {
          failStack := failStack + [Dummy];
        }
        p := if IsJump(op) then q + 3 + NumberAt(q + 1) else if IsMemory(op) then q + 3 else q + 1;
      }
    }

    // The matcher from pos on: the length of the match, or -1. One turn of the loop is one
    // instruction, or one failure point popped.
    method MatchAt(t: Text, pos: nat) returns (n: int)
      requires HoldsProgram() && pos <= |t|
      modifies buffer
      ensures HoldsProgram() && buffer[used..] == old(buffer[used..])
      ensures n == match MatchEnd(program, t, pos) case Some(e) => e - pos case None => -1
    {
      hide Program, Rewritten, Inv, InvFail, Exec, Backtrack, StackGood;
      ghost var P := program;
      var p: nat, d: nat, failStack: seq<FailurePoint> := 0, pos, [];
      var best: Option<nat> := None;
      var failing := false;
      Restart(P, t, pos, Bytes());
      while true
        invariant used <= buffer.Length && buffer[used..] == old(buffer[used..])
        invariant Rewritten(P, Bytes())
        invariant !failing ==> Inv(P, t, Vm(Bytes(), p, d, failStack, best))
        invariant failing ==> InvFail(P, t, Vm(Bytes(), p, d, failStack, best))
        invariant MatchEnd(P, t, pos) ==
          if failing then RunFail(P, t, Vm(Bytes(), p, d, failStack, best))
          else Run(P, t, Vm(Bytes(), p, d, failStack, best))
        decreases if failing then FailCost(P, t, Vm(Bytes(), p, d, failStack, best))
                  else Measure(P, t, Vm(Bytes(), p, d, failStack, best)), if failing then 0 else 1
      {
        ghost var vm := Vm(Bytes(), p, d, failStack, best);
        if failing {
          BacktrackKeeps(P, t, vm);
          BacktrackIs(P, t, vm);
          if failStack == [] {
            return if best.Some? then best.value - pos else -1;
          }
          var top := failStack[|failStack| - 1];
          failStack := failStack[..|failStack| - 1];
          if top.Point? {
            p, d, failing := top.pat, top.str, false;
          }
        } else {
          ExecKeeps(P, t, vm);
          KeptCode(P, t, vm);
          if p == used {
            ExecAtEnd(t, vm);
            if d != |t| && failStack != [] {
              if best.None? || d > best.value {
                best := Some(d);
              }
              failing := true;
            } else if d != |t| && best.Some? && d <= best.value {
              return best.value - pos;
            } else {
              return d - pos;
            }
          } else {
            failing, p, d, failStack := Execute(t, p, d, failStack, vm);
          }
        }
      }
    }

    // ----- re_search_2 -----

    // The fastmap, when it is said to be accurate, is that of the program.
    ghost predicate MapRight()
      requires fastmap != null && fastmap.Length == 256
      reads this`fastmap, this`canBeNull, this`program, fastmap
    {
      && (canBeNull <==> Nullable(program))
      && (!canBeNull ==> forall c: byte :: fastmap[c] <==> First(program, c))
    }

    ghost predicate Valid()
      reads this, buffer, fastmap
    {
      && HoldsProgram() && Quiet(program, 0, |program|, true)
      && (fastmap != null ==>
            && fastmap.Length == 256 && (fastmapAccurate ==> MapRight())
            && (JumpsToEnd(program) ==> used < buffer.Length && buffer[used] != ON_FAILURE_JUMP))
    }

    // The fastmap is made when it is first needed.
    method UpdateFastmap()
      requires Valid() && fastmap != null
      modifies this`fastmapAccurate, this`canBeNull, fastmap
      ensures Valid() && fastmapAccurate
    {
      hide Program, Rewritten, Quiet, Ready, Nullable, First;
      if !fastmapAccurate {
        FastmapIgnoresRewriting(program, Bytes());
        RewrittenLength(program, Bytes());
        RewrittenEnd(program, Bytes());
        CompileFastmap();
      }
    }

    // What holds between the turns of a search.
    ghost predicate Searching()
      reads this, buffer, fastmap
    {
      Valid() && (fastmap != null ==> fastmapAccurate)
    }

    lemma ValidProgram()
      requires Valid()
      ensures Program(program) && HoldsProgram()
    {
      hide Program, HoldsProgram, Quiet;
      HoldingProgram();
    }

    lemma HoldingProgram()
      requires HoldsProgram()
      ensures Program(program)
    {
      hide Program, Rewritten;
    }

    // A search begins: the fastmap, if there is one, is made.
    method BeginSearch()
      requires Valid()
      modifies this`fastmapAccurate, this`canBeNull, fastmap
      ensures Searching()
    {
      hide Valid;
      if fastmap != null {
        UpdateFastmap();
      }
    }

    // From startpos forward, or backward if range is negative: the first position tried at
    // which the pattern matches, and the length of the match there.
    method Search(t: Text, startpos: int, range: int) returns (r: int, n: int)
      requires Valid()
      modifies this`fastmapAccurate, this`canBeNull, buffer, fastmap
      ensures Valid()
      ensures r == if 0 <= startpos <= |t| then FirstHit(program, t, startpos, Clamp(startpos, range, |t|)) else -1
      ensures r >= 0 ==> r <= |t| && MatchEnd(program, t, r) == Some(r + n)
    {
      hide Valid, Program, FirstHit, MatchEnd, Clamp;
      if startpos < 0 || startpos > |t| {
        return -1, 0;
      }
      var s, k := startpos, Clamp(startpos, range, |t|);
      ghost var k0 := k;
      BeginSearch();
      ValidProgram();
      while true
        invariant Searching()
        invariant 0 <= s <= |t| && 0 <= s + k <= |t|
        invariant FirstHit(program, t, startpos, k0) == FirstHit(program, t, s, k)
        decreases Distance(k)
      {
        var over: bool;
        over, r, n, s, k := Turn(t, s, k);
        if over {
          return;
        }
      }
    }

    // One turn of the search, at s with k more positions to come: it ends here, with the
    // result, or goes on at s' with k'.
    method Turn(t: Text, s: nat, k: int) returns (over: bool, r: int, n: int, s': nat, k': int)
      requires Searching() && Program(program) && s <= |t| && 0 <= s + k <= |t|
      modifies buffer
      ensures Searching()
      ensures over ==> r == FirstHit(program, t, s, k) && (r >= 0 ==> r <= |t| && MatchEnd(program, t, r) == Some(r + n))
      ensures !over ==> s' <= |t| && 0 <= s' + k' <= |t| && Distance(k') < Distance(k)
      ensures !over ==> FirstHit(program, t, s, k) == FirstHit(program, t, s', k')
    {
      hide Searching, Program, FirstHit, MatchEnd;
      var advance: bool;
      s', k', advance := UseFastmap(t, s, k);
      over, r, n := true, -1, 0;
      if !advance {
        var val := TryAt(t, s', k');
        HitAt(program, t, s', k');
        if val >= 0 {
          r, n := s', val;
          return;
        }
      }
      MissAt(program, t, s', k');
      if k' == 0 {
        return;
      }
      over := false;
      s', k' := if k' > 0 then s' + 1 else s' - 1, if k' > 0 then k' - 1 else k' + 1;
    }

    // What the fastmap saves: forward, all positions where no match can begin, up to the last;
    // backward, this one.
    method UseFastmap(t: Text, s: nat, k: int) returns (s': nat, k': int, advance: bool)
      requires Searching() && Program(program) && s <= |t| && 0 <= s + k <= |t|
      ensures s' <= |t| && 0 <= s' + k' <= |t| && Distance(k') <= Distance(k)
      ensures FirstHit(program, t, s, k) == FirstHit(program, t, s', k')
      ensures advance ==> MatchEnd(program, t, s') == None
    {
      hide Program, HoldsProgram, Quiet, FirstHit, MatchEnd, Nullable, First, JumpsToEnd;
      s', k', advance := s, k, false;
      if fastmap != null && s < |t| && !canBeNull {
        if k > 0 {
          s', k' := SkipForward(t, s, k);
        } else if !fastmap[t[s]] {
          NoHit(program, t, s);
          advance := true;
        }
      }
    }

    // The matcher, unless at the end of the text the fastmap rules out any match.
    method TryAt(t: Text, s: nat, k: int) returns (val: int)
      requires Searching() && Program(program) && s <= |t| && 0 <= s + k <= |t|
      modifies buffer
      ensures Searching()
      ensures val == match MatchEnd(program, t, s) case Some(e) => e - s case None => -1
    {
      hide Program, Rewritten, Quiet, FirstHit, MatchEnd, Nullable, First, JumpsToEnd;
      if k >= 0 && s == |t| && fastmap != null && !canBeNull {
        NoHit(program, t, s);
        return -1;
      }
      val := MatchAt(t, s);
    }

    // Over the characters that cannot begin a match, up to the last position in range.
    method SkipForward(t: Text, startpos: nat, range: nat) returns (s: nat, k: nat)
      requires Searching() && Program(program) && fastmap != null && !canBeNull
      requires 0 < range && startpos + range <= |t|
      ensures startpos <= s && s + k == startpos + range && k <= range
      ensures FirstHit(program, t, startpos, range) == FirstHit(program, t, s, k)
    {
      hide Program, HoldsProgram, Quiet, FirstHit, MatchEnd, Nullable, First, JumpsToEnd;
      k := range;
      var d := startpos;
      while k > 0 && !fastmap[t[d]]
        invariant startpos <= d && d + k == startpos + range
        invariant FirstHit(program, t, startpos, range) == FirstHit(program, t, d, k)
      {
        NoHit(program, t, d);
        MissAt(program, t, d, k);
        k := k - 1;
        d := d + 1;
      }
      s := startpos + range - k;
    }
  }

  function Distance(k: int): nat {
    if k < 0 then -k else k
  }

  lemma RewrittenEnd(P: Code, Q: Code)
    requires Program(P) && Rewritten(P, Q)
    ensures JumpsToEnd(Q) ==> JumpsToEnd(P)
  {
    RewrittenShape(P, Q);
    hide SameShape, Rewritten, EmptyJump, StartIn;
    if JumpsToEnd(Q) {
      var a: nat :| Start(Q, a) && EmptyJump(Q, a) && a + 3 == |Q|;
      RewrittenLength(P, Q);
      ProgramScan(P);
      StartShape(P, Q, a);
      ShapeOp(P, Q, a);
      assert Start(P, a) && EmptyJump(P, a);
    }
  }

  lemma ProgramScan(P: Code)
    requires Program(P)
    ensures Scan(P, 0, |P|)
  {
  }

  // The bounds of the search keep it inside the text.
  function Clamp(startpos: nat, range: int, n: nat): (k: int)
    requires startpos <= n
    ensures 0 <= startpos + k <= n
    ensures 0 <= startpos + range <= n ==> k == range
  {
    if startpos + range < 0 then 0 - (startpos as int)
    else if startpos + range > n then n - startpos
    else range
  }

  // Trying one position after the other, without a fastmap.
  ghost function FirstHit(P: Code, t: Text, s: nat, k: int): (r: int)
    requires Program(P) && s <= |t| && 0 <= s + k <= |t|
    ensures r >= 0 ==> r <= |t|
    decreases Distance(k)
  {
    if MatchEnd(P, t, s).Some? then s
    else if k == 0 then -1
    else if k > 0 then FirstHit(P, t, s + 1, k - 1)
    else FirstHit(P, t, s - 1, k + 1)
  }

  // A match at the first position tried.
  lemma HitAt(P: Code, t: Text, s: nat, k: int)
    requires Program(P) && s <= |t| && 0 <= s + k <= |t|
    ensures MatchEnd(P, t, s).Some? ==> FirstHit(P, t, s, k) == s && s <= MatchEnd(P, t, s).value <= |t|
  {
    hide Program, MatchEnd;
    HitBelow(P, t, s);
  }

  // None there: the next is tried, if there is one.
  lemma MissAt(P: Code, t: Text, s: nat, k: int)
    requires Program(P) && s <= |t| && 0 <= s + k <= |t|
    ensures MatchEnd(P, t, s).None? ==>
      (FirstHit(P, t, s, k) ==
        if k == 0 then -1 else if k > 0 then FirstHit(P, t, s + 1, k - 1) else FirstHit(P, t, s - 1, k + 1))
  {
    hide Program, MatchEnd;
  }

  // Where the fastmap says no, the matcher says no.
  lemma NoHit(P: Code, t: Text, s: nat)
    requires Program(P) && s <= |t| && !Nullable(P) && (s < |t| ==> !First(P, t[s]))
    ensures MatchEnd(P, t, s) == None
  {
    hide Program, Nullable, First, Run;
    BeginInv(P, t, s);
    if MatchEnd(P, t, s).Some? {
      var e := MatchEnd(P, t, s).value;
      RunSound(P, t, Begin(P, s));
      BeginReaches(P, t, s, e);
      FirstMeans(P, t, s, e);
    }
  }

  // A match ends no earlier than it begins.
  lemma HitBelow(P: Code, t: Text, s: nat)
    requires Program(P) && s <= |t|
    ensures MatchEnd(P, t, s).Some? ==> s <= MatchEnd(P, t, s).value <= |t|
  {
    hide Program, Run;
    BeginInv(P, t, s);
    if MatchEnd(P, t, s).Some? {
      var e := MatchEnd(P, t, s).value;
      RunSound(P, t, Begin(P, s));
      BeginReaches(P, t, s, e);
      AccBound(P, t, 0, s, e);
    }
  }

  ghost function FailCost(P: Code, t: Text, vm: Vm): nat
    requires InvFail(P, t, vm)
  {
    StackCost(P, t, vm.stack)
  }

  // The matcher may begin with whatever earlier runs have left in the buffer.
  lemma Restart(P: Code, t: Text, pos: nat, Q: Code)
    requires Program(P) && Rewritten(P, Q) && pos <= |t|
    ensures Inv(P, t, Vm(Q, 0, pos, [], None)) && Run(P, t, Vm(Q, 0, pos, [], None)) == MatchEnd(P, t, pos)
  {
    BeginInv(P, t, pos);
    RunIgnoresRewriting(P, t, Begin(P, pos), Q);
  }

  // What the instruction at hand is and does.
  lemma StepFacts(P: Code, t: Text, vm: Vm)
    requires Inv(P, t, vm) && vm.p < |vm.code|
    ensures |vm.code| == |P| && InsLen(vm.code, vm.p) > 0 && vm.d <= |t|
    ensures vm.code[vm.p] == EXACTN ==>
      var Q, a := vm.code, vm.p;
      && a + 1 < |Q| && a + 2 + Q[a + 1] <= |Q|
      && Exec(t, vm) ==
           if vm.d + Q[a + 1] <= |t| && t[vm.d..vm.d + Q[a + 1]] == Q[a + 2..a + 2 + Q[a + 1]]
           then Next(vm.(p := a + 2 + Q[a + 1], d := vm.d + Q[a + 1])) else Fails(vm)
    ensures IsEater(vm.code[vm.p]) ==>
      var Q, a := vm.code, vm.p;
      && (Q[a] != ANYCHAR ==> a + 1 < |Q|)
      && Exec(t, vm) ==
           if vm.d < |t| && Eats(Q, a, t[vm.d])
           then Next(vm.(p := if Q[a] == ANYCHAR then a + 1 else a + 2 + Q[a + 1], d := vm.d + 1)) else Fails(vm)
    ensures vm.code[vm.p] == ON_FAILURE_JUMP ==>
      var Q, a := vm.code, vm.p;
      && a + 3 <= |Q| && Target(Q, a) >= 0
      && Exec(t, vm) == Next(vm.(p := a + 3, stack := vm.stack + [Point(Target(Q, a), vm.d)]))
  {
    hide Program, Rewritten, StackGood, InLoop;
    RewrittenLength(P, vm.code);
    StartFacts(P, t, vm);
    if vm.code[vm.p] == ON_FAILURE_JUMP {
      Branching(P, t, vm);
    }
  }

  lemma KeptCode(P: Code, t: Text, vm: Vm)
    requires Inv(P, t, vm)
    ensures |vm.code| == |P| && vm.p <= |P| && InvFail(P, t, vm) && (Exec(t, vm).Next? ==> Rewritten(P, Exec(t, vm).vm.code))
  {
    ExecKeeps(P, t, vm);
    RewrittenLength(P, vm.code);
    PlaceEnd(P, vm.p);
  }

  // At the end of a loop.
  lemma BackFacts(P: Code, t: Text, vm: Vm)
    requires Inv(P, t, vm) && vm.p < |vm.code| && IsBack(vm.code[vm.p])
    ensures
      var Q, a := vm.code, vm.p;
      && IsEnd(P, a) && a + 3 <= |Q| && Target(Q, a) >= 0 && vm.stack != []
      && (Q[a] != MAYBE_POP_JUMP ==> Q[a] == Choice(P, a))
      && Exec(t, vm) == Next(vm.(code := Q[a := Choice(P, a)], p := Target(Q, a),
                                 stack := if Pops(P, a) then vm.stack[..|vm.stack| - 1] else vm.stack))
  {
    hide Program, Rewritten, StackGood, InLoop, Pops;
    RewrittenLength(P, vm.code);
    StartFacts(P, t, vm);
    LoopingExec(P, t, vm);
    LoopIs(P, vm.p);
  }

  // Everything else: one way on.
  lemma OnFacts(P: Code, t: Text, vm: Vm)
    requires Inv(P, t, vm) && vm.p < |vm.code|
    requires var op := vm.code[vm.p]; !Consumes(op) && op != ON_FAILURE_JUMP && !IsBack(op)
    ensures
      var Q, a := vm.code, vm.p;
      var op := Q[a];
      && (IsJump(op) ==> a + 3 <= |Q| && Target(Q, a) >= 0)
      && Exec(t, vm) == Next(vm.(
           p := if IsJump(op) then Target(Q, a) else if IsMemory(op) then a + 3 else a + 1,
           stack := vm.stack + if op == DUMMY_FAILURE_JUMP || op == PUSH_DUMMY_FAILURE then [Dummy] else []))
  {
    hide Program, Rewritten, StackGood, InLoop;
    RewrittenLength(P, vm.code);
    StartFacts(P, t, vm);
    PassingExec(P, t, vm);
  }

  // Where the decision at the end of a loop looks.
  lemma DecisionPlaces(P: Code, Q: Code, m: nat)
    requires Program(P) && Rewritten(P, Q) && IsEnd(P, m)
    ensures |Q| == |P| && m + 3 <= |Q| && Head(Q, m) >= 0
    ensures
      var b := Head(Q, m) + 3;
      var p2 := SkipMemory(Q, m + 3);
      && b < |Q| && InsLen(Q, b) > 0 && p2 <= |Q|
      && (p2 < |Q| ==> InsLen(Q, p2) > 0 && (Q[p2] == EXACTN ==> p2 + 2 < |Q|))
  {
    hide Program, Rewritten;
    RewrittenLength(P, Q);
    LoopIs(P, m);
    SameOp(P, Q, m);
    var l := Head(P, m);
    NextPlace(P, l, m + 3);
    SkipSame(P, Q, m + 3);
    SameOp(P, Q, l + 3);
    var p2 := SkipMemory(Q, m + 3);
    PlaceEnd(P, p2);
    if p2 < |P| {
      PlaceStart(P, p2);
      SameOp(P, Q, p2);
    }
  }

  lemma JumpFacts(P: Code, a: nat)
    requires Ready(P) && Start(P, a) && IsJump(P[a]) && P[a] != ON_FAILURE_JUMP
    ensures InsLen(P, a) == 3 && 0 <= Target(P, a) <= |P|
    ensures Target(P, a) < a + 3 ==>
      var x := Target(P, a);
      x + 3 <= |P| && P[x] == ON_FAILURE_JUMP && Target(P, x) == a + 3
    ensures Target(P, a) == a + 3 < |P| ==> P[a + 3] != ON_FAILURE_JUMP
  {
    var x := Target(P, a);
    assert Edges(P, a) == {x};
    EdgeTo(P, a, x);
    if IsBack(P[a]) {
      LoopAt(P, a);
    }
    assert x == a + 3 ==> EmptyJump(P, a);
  }

  lemma WalkBelow(P: Code, w: Walk)
    requires Right(P, w)
    ensures w.p <= |P| && (w.nullable ==> Nullable(P))
  {
  }

  lemma ForkNonNegative(P: Code, w: Walk)
    requires Ready(P) && Right(P, w) && w.p < |P| && P[w.p] == ON_FAILURE_JUMP
    ensures w.p + 3 <= Target(P, w.p)
  {
    ForkRight(P, w);
  }
}
