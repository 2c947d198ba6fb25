/**
 The whole way: a pattern is compiled, and the text searched with the compiled pattern. What
 is found is the leftmost of the longest matches (section 9.1 of IEEE Std 1003.1).
 */
module RegexTheorems {
  import opened Wrappers
  import opened RegexBytes
  import opened RegexSyntax
  import opened RegexGen
  import opened RegexNfa
  import opened RegexMeaning
  import opened RegexBlocks
  import opened RegexQuiet
  import opened RegexCompileSpec
  import opened RegexCompileProof
  import opened RegexCompiler
  import opened RegexVm
  import opened RegexVmProof
  import opened RegexVmRun
  import opened RegexMatch
  import opened RegexFastmap
  import opened RegexPattern

  // ----- the fastmap of a tree, whatever its loops -----

  // A pattern can match nothing exactly when its language has the empty word; otherwise every
  // match begins with a character of the fastmap.
  lemma FastmapOfTree(r: Regex, t: Text, i: nat, j: nat)
    requires WellFormed(r) && |RegexCode(r, 0)| <= MAX_OFFSET && i <= j <= |t|
    ensures Ready(RegexCode(r, 0))
    ensures Nullable(RegexCode(r, 0)) <==> [] in RegexLang(r)
    ensures t[i..j] in RegexLang(r) && !Nullable(RegexCode(r, 0)) ==> i < j && First(RegexCode(r, 0), t[i])
  {
    var P := RegexCode(r, 0);
    CodeIsWellFormed(r);
    CodeIsQuiet(r);
    hide WellFormedCode, Quiet, Acc, First, Nullable;
    assert t[i..i] == [];
    NullableMeans(P, t, i);
    CodeMeansLanguage(r, t, i, i);
    if t[i..j] in RegexLang(r) {
      CodeMeansLanguage(r, t, i, j);
      FirstMeans(P, t, i, j);
      if i == j {
        assert t[i..j] == [];
      }
    }
  }

  // ----- searching -----

  // Trying the positions from s to s + k finds the first of them where there is a match.
  lemma {:induction false} FirstHitIs(P: Code, t: Text, s: nat, k: int)
    requires Program(P) && s <= |t| && 0 <= s + k <= |t|
    ensures
      var h := FirstHit(P, t, s, k);
      if h < 0 then forall x: nat | Between(s, x, s + k) :: MatchEnd(P, t, x) == None
      else && Between(s, h, s + k) && MatchEnd(P, t, h).Some?
           && forall x: nat | Between(s, x, s + k) && Closer(s, x, h) :: MatchEnd(P, t, x) == None
    decreases if k < 0 then -k else k
  {
    hide MatchEnd, Program;
    if MatchEnd(P, t, s).None? && k > 0 {
      FirstHitIs(P, t, s + 1, k - 1);
    } else if MatchEnd(P, t, s).None? && k < 0 {
      FirstHitIs(P, t, s - 1, k + 1);
    }
  }

  predicate Between(a: int, x: int, b: int) {
    a <= x <= b || b <= x <= a
  }

  // x comes before h when searching from s.
  predicate Closer(s: int, x: int, h: int) {
    s <= x < h || h < x <= s
  }

  // A search tries exactly the positions of its range that are in the text.
  lemma ClampIs(startpos: nat, range: int, n: nat, x: int)
    requires startpos <= n
    ensures Between(startpos, x, startpos + Clamp(startpos, range, n)) <==> Between(startpos, x, startpos + range) && 0 <= x <= n
  {
  }

  // Some word of A stands in the text at x.
  ghost predicate StandsAt(A: Lang, t: Text, x: nat) {
    exists j: nat | x <= j <= |t| :: t[x..j] in A
  }

  // regexec without REG_NOSUB: where the match is, if there is one.
  method RegExec(pb: PatternBuffer, t: Text, ghost r: Regex) returns (found: bool, start: nat, end: nat)
    requires pb.Valid() && pb.program == RegexCode(r, 0)
    requires WellFormed(r) && SimpleRegex(r) && |RegexCode(r, 0)| <= MAX_OFFSET && Harmless(RegexCode(r, 0))
    modifies pb`fastmapAccurate, pb`canBeNull, pb.buffer, pb.fastmap
    ensures pb.Valid()
    ensures found ==> start <= |t| && LongestPrefix(RegexLang(r), t, start, end)
    ensures found ==> forall x: nat | x < start :: !StandsAt(RegexLang(r), t, x)
    ensures !found ==> forall x: nat | x <= |t| :: !StandsAt(RegexLang(r), t, x)
  {
    hide Program, Harmless, MatchEnd, FirstHit, RegexLang, RegexCode, SimpleRegex, WellFormed;
    var h, n := pb.Search(t, 0, |t|);
    found, start, end := h >= 0, 0, 0;
    ghost var P := pb.program;
    FirstHitIs(P, t, 0, |t|);
    if found {
      HitBelow(P, t, h);
      start, end := h, h + n;
      MatchesLongest(r, t, start);
    }
    forall x: nat | x <= |t| && (!found || x < start)
      ensures !StandsAt(RegexLang(r), t, x)
    {
      assert MatchEnd(P, t, x) == None;
      MatchesLongest(r, t, x);
    }
  }

  // regcomp, for a pattern that is the text of a tree and whose code fits.
  method RegComp(r: Regex) returns (pb: PatternBuffer)
    requires WellFormed(r) && SimpleRegex(r) && |RegexCode(r, 0)| <= MAX_OFFSET
    ensures fresh(pb) && fresh(pb.buffer) && pb.Valid() && pb.program == RegexCode(r, 0) && pb.fastmap == null
  {
    hide Program, Quiet, RegexCode, WellFormedCode, Simple, Compile;
    WithIntervals(r);
    CompilesToCode(r);
    CodeIsWellFormed(r);
    CodeIsQuiet(r);
    var c := new Compiler();
    var used := c.RegexCompile(RegexText(r));
    assert used.Ok?;
    pb := new PatternBuffer(c.buffer, used.value);
  }
}
