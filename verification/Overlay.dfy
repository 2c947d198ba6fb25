/**
 Printf with tab formats. Segments are formatted one after another and written over what is
 there, each at its column: a gap before it is filled with blanks, and text beyond its end is
 kept.
 */
module Overlay {
  import opened Wrappers
  import opened Numerals
  import opened RegexBytes
  import opened RegexSyntax
  import opened RegexGen
  import opened RegexBlocks
  import opened RegexVmProof
  import opened RegexMatch
  import opened RegexPattern
  import opened RegexTheorems
  import opened TabFormat

  const CMAX := 1024
  const BLANK: byte := 32

  // ----- text over text -----

  function Blanks(n: nat): (r: Text)
    ensures |r| == n && forall k | 0 <= k < n :: r[k] == BLANK
  {
    seq(n, _ => BLANK)
  }

  function Padded(canvas: Text, at: nat): Text {
    if |canvas| < at then canvas + Blanks(at - |canvas|) else canvas
  }

  function Written(canvas: Text, at: nat, text: Text): Text {
    var c := Padded(canvas, at);
    c[..at] + text + if at + |text| < |c| then c[at + |text|..] else []
  }

  datatype Run = Run(at: nat, text: Text)

  function WriteAll(canvas: Text, runs: seq<Run>): Text
    decreases |runs|
  {
    if runs == [] then canvas
    else
      var n := |runs| - 1;
      Written(WriteAll(canvas, runs[..n]), runs[n].at, runs[n].text)
  }

  predicate Covers(run: Run, i: nat) {
    run.at <= i < run.at + |run.text|
  }

  // The last of the runs to cover column i.
  predicate LastCover(runs: seq<Run>, i: nat, k: nat) {
    k < |runs| && Covers(runs[k], i) && forall x: nat | k < x < |runs| :: !Covers(runs[x], i)
  }

  predicate Bare(runs: seq<Run>, i: nat) {
    forall k: nat | k < |runs| :: !Covers(runs[k], i)
  }

  // The result ends where the run that goes furthest ends.
  function Width(runs: seq<Run>): nat
    decreases |runs|
  {
    if runs == [] then 0
    else
      var n := |runs| - 1;
      var e := runs[n].at + |runs[n].text|;
      if e > Width(runs[..n]) then e else Width(runs[..n])
  }

  lemma WrittenIs(canvas: Text, at: nat, text: Text)
    ensures
      var r := Written(canvas, at, text);
      && |r| == (if at + |text| > |canvas| then at + |text| else |canvas|)
      && forall i | 0 <= i < |r| ::
           r[i] == if at <= i < at + |text| then text[i - at] else if i < |canvas| then canvas[i] else BLANK
  {
  }

  // What stands at a column is the character of the last run there, or a blank.
  lemma {:induction false} WriteAllIs(runs: seq<Run>, i: nat, k: nat)
    ensures |WriteAll([], runs)| == Width(runs)
    ensures LastCover(runs, i, k) ==> i < Width(runs) && WriteAll([], runs)[i] == runs[k].text[i - runs[k].at]
    ensures Bare(runs, i) && i < Width(runs) ==> WriteAll([], runs)[i] == BLANK
    decreases |runs|
  {
    hide Written, LastCover, Bare;
    if runs == [] {
      NothingCovers(i, k);
    } else {
      var n := |runs| - 1;
      WriteAllIs(runs[..n], i, k);
      WrittenIs(WriteAll([], runs[..n]), runs[n].at, runs[n].text);
      CoverStep(runs, i, k);
    }
  }

  lemma NothingCovers(i: nat, k: nat)
    ensures !LastCover([], i, k)
  {
  }

  lemma CoverStep(runs: seq<Run>, i: nat, k: nat)
    requires runs != []
    ensures
      var n := |runs| - 1;
      && (LastCover(runs, i, k) <==> if k == n then Covers(runs[n], i) else !Covers(runs[n], i) && LastCover(runs[..n], i, k))
      && (LastCover(runs, i, k) ==> k < |runs| && Covers(runs[k], i))
      && (Bare(runs, i) <==> !Covers(runs[n], i) && Bare(runs[..n], i))
  {
    var n := |runs| - 1;
    assert forall x: nat | x < n :: runs[..n][x] == runs[x];
  }

  // ----- a format string with its arguments -----

  // vsprintf: what a segment is formatted to, and how many arguments it takes.
  type Formatter = (Text, seq<int>) -> (Text, nat)

  function Number(digits: Text): int
    decreases |digits|
  {
    if digits == [] then 0
    else 10 * Number(digits[..|digits| - 1]) + digits[|digits| - 1] - ZERO
  }

  function Formatted(f: Formatter, segment: Text, args: seq<int>): Text {
    f(segment, args).0
  }

  function Taken(f: Formatter, segment: Text, args: seq<int>): nat {
    f(segment, args).1
  }

  // What remains of the arguments after a segment; an empty one is not formatted.
  function Rest(f: Formatter, segment: Text, args: seq<int>): seq<int> {
    if segment == [] || Taken(f, segment, args) > |args| then args else args[Taken(f, segment, args)..]
  }

  function Printed(f: Formatter, segment: Text, at: nat, args: seq<int>): seq<Run> {
    if segment == [] then [] else [Run(at, Formatted(f, segment, args))]
  }

  function Column(column: Text, args: seq<int>): int {
    if column == [STAR] then if args == [] then 0 else args[0] else Number(column)
  }

  predicate ColumnOk(col: int) {
    0 < col <= CMAX
  }

  function AfterColumn(column: Text, args: seq<int>): seq<int> {
    if column == [STAR] && args != [] then args[1..] else args
  }

  // What is written where; nothing once a column is out of range.
  function Runs(f: Formatter, l: Layout, at: nat, args: seq<int>): Option<seq<Run>>
    decreases l
  {
    var first := Printed(f, l.segment, at, args);
    match l
    case End(_) => Some(first)
    case Tab(segment, column, rest) =>
      var args' := Rest(f, segment, args);
      var col := Column(column, args');
      if !ColumnOk(col) then None
      else match Runs(f, rest, col - 1, AfterColumn(column, args'))
        case None => None
        case Some(more) => Some(first + more)
  }

  // What the program asks of the formatter: no nulls, text that fits before the last byte of
  // the buffer, no more arguments than there are.
  ghost predicate SegmentFits(f: Formatter, segment: Text, at: nat, args: seq<int>) {
    segment != [] ==>
      && Taken(f, segment, args) <= |args| && 0 !in Formatted(f, segment, args)
      && at + |Formatted(f, segment, args)| < CMAX
  }

  // Segments before tab formats and their numbers fit the buffers they are copied to, and there
  // is an argument for every star.
  ghost predicate Fits(f: Formatter, l: Layout, at: nat, args: seq<int>)
    decreases l
  {
    && SegmentFits(f, l.segment, at, args)
    && (l.Tab? ==>
          var args' := Rest(f, l.segment, args);
          && |l.segment| < CMAX
          && (if l.column == [STAR] then args' != [] else |l.column| <= 7)
          && (ColumnOk(Column(l.column, args')) ==>
                Fits(f, l.rest, Column(l.column, args') - 1, AfterColumn(l.column, args'))))
  }

  // ----- a column written in digits -----

  function Zeros(k: nat): Text {
    seq(k, _ => ZERO)
  }

  lemma {:induction false} NumberOfDecimal(n: nat)
    ensures Number(Decimal(n)) == n
  {
    var w: Text := Decimal(n);
    assert w[|w| - 1] == ZERO + n % 10;
    if n < 10 {
      assert w[..|w| - 1] == [];
    } else {
      NumberOfDecimal(n / 10);
      assert w[..|w| - 1] == Decimal(n / 10);
    }
  }

  lemma {:induction false} LeadingZeros(k: nat, w: Text)
    ensures Number(Zeros(k) + w) == Number(w)
    decreases k + 2 * |w|
  {
    var z := Zeros(k) + w;
    if w != [] {
      assert z[..|z| - 1] == Zeros(k) + w[..|w| - 1];
      LeadingZeros(k, w[..|w| - 1]);
    } else if k > 0 {
      assert z[..k - 1] == Zeros(k - 1) + [];
      LeadingZeros(k - 1, []);
    } else {
      assert z == [];
    }
  }

  // Digits are no star: the column is the number they are.
  lemma ColumnOfDecimal(k: nat, n: nat, args: seq<int>)
    ensures Column(Zeros(k) + Decimal(n), args) == n && AfterColumn(Zeros(k) + Decimal(n), args) == args
    ensures Number(Zeros(k) + Decimal(n)) == n && Zeros(k) + Decimal(n) != [STAR]
  {
    var w: Text := Decimal(n);
    NumberOfDecimal(n);
    LeadingZeros(k, w);
    var z := Zeros(k) + w;
    assert z[|z| - 1] == w[|w| - 1] != STAR;
  }

  // The text before a tab format: nothing for an empty segment.
  function Before(f: Formatter, segment: Text, args: seq<int>): Text {
    if segment == [] then [] else Formatted(f, segment, args)
  }

  // The runs of a text, a column, and another text.
  lemma RunsOfTab(f: Formatter, segment: Text, column: Text, x: Text, args: seq<int>)
    requires column != [STAR] && ColumnOk(Number(column)) && x != [] && Fits(f, Tab(segment, column, End(x)), 0, args)
    ensures
      var (n, args') := (Number(column), Rest(f, segment, args));
      && Runs(f, Tab(segment, column, End(x)), 0, args)
        == Some(Printed(f, segment, 0, args) + [Run(n - 1, Formatted(f, x, args'))])
      && n - 1 + |Formatted(f, x, args')| < CMAX
  {
    hide Number, Rest, Formatted;
    var (n, args') := (Number(column), Rest(f, segment, args));
    assert SegmentFits(f, x, n - 1, args');
    assert Runs(f, End(x), n - 1, args') == Some([Run(n - 1, Formatted(f, x, args'))]);
  }

  lemma TwoRuns(before: seq<Run>, at: nat, text: Text)
    ensures WriteAll([], before + [Run(at, text)]) == Written(WriteAll([], before), at, text)
  {
    hide Written;
    var runs := before + [Run(at, text)];
    assert runs[..|runs| - 1] == before;
  }

  // The text at its place; before that what was there before, and blanks, and after that what is
  // left of it.
  predicate Overlaid(w: Text, before: Text, at: nat, text: Text) {
    && |w| == (if at + |text| > |before| then at + |text| else |before|)
    && w[at..at + |text|] == text
    && forall i | 0 <= i < |w| && !(at <= i < at + |text|) :: w[i] == if i < |before| then before[i] else BLANK
  }

  lemma WrittenStands(before: Text, at: nat, text: Text)
    ensures Overlaid(Written(before, at, text), before, at, text)
  {
    WrittenIs(before, at, text);
    hide Written;
  }

  // Text after a tab format stands from the column it names on, counted from 1.
  lemma TextAtColumn(f: Formatter, segment: Text, k: nat, n: nat, x: Text, args: seq<int>)
    requires 0 < n <= CMAX && x != [] && Fits(f, Tab(segment, Zeros(k) + Decimal(n), End(x)), 0, args)
    ensures
      var (before, text) := (Before(f, segment, args), Formatted(f, x, Rest(f, segment, args)));
      var runs := Runs(f, Tab(segment, Zeros(k) + Decimal(n), End(x)), 0, args);
      runs.Some? && n - 1 + |text| < CMAX && Overlaid(WriteAll([], runs.value), before, n - 1, text)
  {
    ColumnOfDecimal(k, n, []);
    assert ColumnOk(Number(Zeros(k) + Decimal(n)));
    hide *;
    var before, text := Before(f, segment, args), Formatted(f, x, Rest(f, segment, args));
    RunsOfTab(f, segment, Zeros(k) + Decimal(n), x, args);
    TwoRuns(Printed(f, segment, 0, args), n - 1, text);
    BeforeWritten(f, segment, args);
    WrittenStands(before, n - 1, text);
  }

  lemma BeforeWritten(f: Formatter, segment: Text, args: seq<int>)
    ensures WriteAll([], Printed(f, segment, 0, args)) == Before(f, segment, args)
  {
    if segment != [] {
      hide Written;
      var t := Formatted(f, segment, args);
      assert [Run(0, t)][..0] == [];
      WrittenIs([], 0, t);
      assert Written([], 0, t) == t;
    }
  }

  // What is left of the arguments: those a segment does not take.
  function Left(f: Formatter, segment: Text, args: seq<int>): seq<int>
    requires segment == [] || Taken(f, segment, args) <= |args|
  {
    if segment == [] then args else args[Taken(f, segment, args)..]
  }

  // With a star the column is the next argument, and the text after it is given those after that.
  lemma TextAtStar(f: Formatter, segment: Text, x: Text, args: seq<int>)
    requires x != [] && Fits(f, Tab(segment, [STAR], End(x)), 0, args)
    ensures
      var left := Left(f, segment, args);
      var (before, text) := (Before(f, segment, args), Formatted(f, x, left[1..]));
      var runs := Runs(f, Tab(segment, [STAR], End(x)), 0, args);
      && left != []
      && if 1 <= left[0] <= 1024 then runs.Some? && Overlaid(WriteAll([], runs.value), before, left[0] - 1, text)
         else runs == None
  {
    LeftIs(f, segment, args);
    var left := Left(f, segment, args);
    RunsAtStar(f, segment, x, args);
    if 1 <= left[0] <= 1024 {
      hide *;
      TwoRuns(Printed(f, segment, 0, args), left[0] - 1, Formatted(f, x, left[1..]));
      BeforeWritten(f, segment, args);
      WrittenStands(Before(f, segment, args), left[0] - 1, Formatted(f, x, left[1..]));
    }
  }

  lemma LeftIs(f: Formatter, segment: Text, args: seq<int>)
    requires SegmentFits(f, segment, 0, args)
    ensures Rest(f, segment, args) == Left(f, segment, args)
  {
  }

  lemma RunsAtStar(f: Formatter, segment: Text, x: Text, args: seq<int>)
    requires x != [] && Fits(f, Tab(segment, [STAR], End(x)), 0, args)
    ensures
      var left := Rest(f, segment, args);
      && left != []
      && Runs(f, Tab(segment, [STAR], End(x)), 0, args) ==
        if 1 <= left[0] <= 1024 then Some(Printed(f, segment, 0, args) + [Run(left[0] - 1, Formatted(f, x, left[1..]))])
        else None
  {
    hide Rest, Formatted;
    var left := Rest(f, segment, args);
    if 1 <= left[0] <= 1024 {
      assert Runs(f, End(x), left[0] - 1, left[1..]) == Some([Run(left[0] - 1, Formatted(f, x, left[1..]))]);
    }
  }

  // A column of 0, or beyond the buffer, is refused.
  lemma ColumnRefused(f: Formatter, segment: Text, k: nat, n: nat, rest: Layout, args: seq<int>)
    ensures Runs(f, Tab(segment, Zeros(k) + Decimal(n), rest), 0, args).Some? ==> 1 <= n <= 1024
  {
    ColumnOfDecimal(k, n, Rest(f, segment, args));
    hide Zeros, Decimal, Rest, Number, Column;
  }

  // ----- the static buffer -----

  class Buffer {
    const destbuf: array<byte>
    const vsprintf: Formatter
    var pCur: nat
    var curLen: nat
    var val: seq<int>

    // memset, and the argument list
    constructor (f: Formatter, args: seq<int>)
      ensures Valid() && fresh(destbuf) && Canvas() == [] && pCur == 0 && val == args && vsprintf == f
    {
      destbuf := new byte[CMAX](_ => 0);
      vsprintf, pCur, curLen, val := f, 0, 0, args;
    }

    ghost predicate Valid()
      reads this, destbuf
    {
      && destbuf.Length == CMAX && pCur < CMAX && curLen < CMAX
      && (forall k | 0 <= k < curLen :: destbuf[k] != 0)
      && (forall k | curLen <= k < CMAX :: destbuf[k] == 0)
    }

    ghost function Canvas(): Text
      requires Valid()
      reads this, destbuf
    {
      destbuf[..curLen]
    }

    // Blank fill up to the current column.
    method BlankFill()
      requires Valid()
      modifies this`curLen, destbuf
      ensures Valid() && Canvas() == Padded(old(Canvas()), pCur)
    {
      if pCur > curLen {
        var p := curLen;
        while p < pCur
          invariant curLen <= p <= pCur
          invariant destbuf[..curLen] == old(destbuf[..curLen])
          invariant forall k | curLen <= k < p :: destbuf[k] == BLANK
          invariant forall k | pCur <= k < CMAX :: destbuf[k] == 0
          invariant destbuf[..p] == old(Canvas()) + Blanks(p - curLen)
        {
          destbuf[p] := BLANK;
          p := p + 1;
        }
        curLen := pCur;
      }
    }

    // strlen
    method StringLength(a: array<byte>) returns (n: nat)
      requires exists k: nat :: k < a.Length && a[k] == 0
      ensures n < a.Length && a[n] == 0 && forall k | 0 <= k < n :: a[k] != 0
    {
      n := 0;
      while a[n] != 0
        invariant n < a.Length && forall k | 0 <= k < n :: a[k] != 0
        invariant exists k: nat :: n <= k < a.Length && a[k] == 0
        decreases a.Length - n
      {
        n := n + 1;
      }
    }

    // What vsprintf does: text and a null, at the current column.
    method PutText(text: Text)
      requires Valid() && pCur + |text| < CMAX
      modifies destbuf
      ensures forall k | 0 <= k < CMAX ::
        destbuf[k] ==
          (if pCur <= k < pCur + |text| then text[k - pCur] else if k == pCur + |text| then 0 else old(destbuf[k]))
    {
      forall k | pCur <= k < pCur + |text| {
        destbuf[k] := text[k - pCur];
      }
      destbuf[pCur + |text|] := 0;
    }

    // A copy of what may be overwritten.
    method Save() returns (sav: array<byte>)
      requires Valid()
      ensures fresh(sav) && sav.Length == CMAX
      ensures pCur <= curLen ==> forall k | pCur <= k < curLen :: sav[k - pCur] == destbuf[k]
    {
      sav := new byte[CMAX](_ => 0);
      var p, q := pCur, 0;
      while p < curLen
        invariant pCur <= p && q == p - pCur && (p <= curLen || p == pCur)
        invariant forall k | pCur <= k < p :: sav[k - pCur] == destbuf[k]
      {
        sav[q] := destbuf[p];
        p, q := p + 1, q + 1;
      }
    }

    // The text is put over what is there; where its null falls inside, the saved character is
    // put back.
    method Overwrite(text: Text, sav: array<byte>)
      requires Valid() && pCur <= curLen && pCur + |text| < CMAX && 0 !in text
      requires sav != destbuf && sav.Length == CMAX
      requires forall k | pCur <= k < curLen :: sav[k - pCur] == destbuf[k]
      modifies this`curLen, destbuf
      ensures Valid() && Canvas() == Written(old(Canvas()), pCur, text)
    {
      hide Padded, Written;
      ghost var w := Written(Canvas(), pCur, text);
      WrittenIs(Canvas(), pCur, text);
      PutText(text);
      assert destbuf[pCur + |text|] == 0;
      var transLen := StringLength(destbuf);
      assert transLen == pCur + |text| by {
        assert forall k | 0 <= k < pCur + |text| :: destbuf[k] != 0;
      }
      if transLen < curLen {
        destbuf[transLen] := sav[transLen - pCur];
      } else {
        curLen := transLen;
      }
      assert |w| == curLen && forall k | 0 <= k < curLen :: destbuf[k] == w[k];
    }

    // translate_segment
    method TranslateSegment(fmt: Text)
      requires Valid() && SegmentFits(vsprintf, fmt, pCur, val)
      modifies this`curLen, this`val, destbuf
      ensures Valid() && val == Rest(vsprintf, fmt, old(val))
      ensures Canvas() == WriteAll(old(Canvas()), Printed(vsprintf, fmt, pCur, old(val)))
    {
      if fmt == [] {
        return;
      }
      BlankFill();
      var sav := Save();
      var text := Formatted(vsprintf, fmt, val);
      val := val[Taken(vsprintf, fmt, val)..];
      PaddedFirst(old(Canvas()), pCur, text);
      OneRun(old(Canvas()), Run(pCur, text));
      Overwrite(text, sav);
    }

    // ----- the format string -----

    // regexec of the tab pattern from pSrc on
    method FindTab(pb: PatternBuffer, fmt: Text, pSrc: nat) returns (found: bool, so: nat, eo: nat)
      requires pSrc <= |fmt| && TabPattern(pb)
      modifies pb`fastmapAccurate, pb`canBeNull, pb.buffer, pb.fastmap
      ensures TabPattern(pb)
      ensures found ==> pSrc <= so && TabAt(fmt, so, eo) && NoTabAt(fmt, pSrc, so)
      ensures !found ==> NoTabAt(fmt, pSrc, |fmt| + 1)
    {
      hide *;
      TabPatternIs(pb);
      TabTreeTame();
      var start, end;
      ghost var A := RegexLang(TabTree());
      found, start, end := RegExec(pb, fmt[pSrc..], TabTree());
      TabPatternIs(pb);
      so, eo := pSrc + start, pSrc + end;
      if found {
        TabFound(fmt, pSrc, start, end);
      }
      NoneFound(fmt, pSrc, if found then start else |fmt| + 1 - pSrc);
    }

    // The percent signs before what looks like a tab format, counted backwards.
    method Escaped(fmt: Text, s: nat) returns (noTab: bool)
      requires s <= |fmt|
      ensures noTab <==> PercentsBefore(fmt, s) % 2 == 1
    {
      noTab := false;
      if s > 0 && fmt[s - 1] == PERCENT {
        var p: int := s - 2;
        noTab := true;
        while p >= 0 && fmt[p] == PERCENT
          invariant -1 <= p <= s - 2
          invariant PercentsBefore(fmt, s) == s - 1 - p + PercentsBefore(fmt, p + 1)
          invariant noTab <==> (s - 1 - p) % 2 == 1
        {
          noTab, p := !noTab, p - 1;
        }
      }
    }

    // A segment and the tab format after it.
    method TranslateTab(ghost l: Layout, segment: Text, column: Text) returns (ok: bool)
      requires Valid() && l.Tab? && segment == l.segment && column == l.column && Fits(vsprintf, l, pCur, val)
      modifies this`pCur, this`curLen, this`val, destbuf
      ensures Valid() && Canvas() == WriteAll(old(Canvas()), Printed(vsprintf, l.segment, old(pCur), old(val)))
      ensures
        var args' := Rest(vsprintf, segment, old(val));
        var col := Column(column, args');
        && ok == ColumnOk(col)
        && (ok ==> pCur == col - 1 && val == AfterColumn(column, args'))
    {
      hide Written, WriteAll, Printed, Rest, Column, AfterColumn;
      TranslateSegment(segment);
      var col := Column(column, val);
      val := AfterColumn(column, val);
      if col <= 0 || col > CMAX {
        return false;
      }
      pCur := col - 1;
      return true;
    }

    // translate_string: the length of the text, or -1.
    method TranslateString(pb: PatternBuffer, fmt: Text) returns (status: int)
      requires Valid() && Canvas() == [] && pCur == 0 && Fits(vsprintf, Parse(fmt), 0, val)
      requires TabPattern(pb) && pb.buffer != destbuf
      modifies this`pCur, this`curLen, this`val, destbuf
      modifies pb`fastmapAccurate, pb`canBeNull, pb.buffer, pb.fastmap
      ensures Valid() && TabPattern(pb)
      ensures match Runs(vsprintf, Parse(fmt), 0, old(val))
        case None => status == -1
        case Some(runs) => Canvas() == WriteAll([], runs) && status == |WriteAll([], runs)|
    {
      hide IsTab, TabAt, NoTabAt, NoTabFrom, Unescaped, PercentsBefore, WriteAll, Parse, Runs, Fits, SegmentFits,
        Printed, Rest, Column, AfterColumn, TabTree, RegexCode, IsColumn;
      var pSrc: nat, pLast: nat := 0, 0;
      ghost var runs: seq<Run> := [];
      ghost var all := Runs(vsprintf, Parse(fmt), 0, val);
      assert fmt[0..] == fmt;
      Starting(fmt);
      var found, so, eo := FindTab(pb, fmt, pSrc);
      while found
        invariant Valid() && TabPattern(pb) && pLast <= pSrc <= |fmt|
        invariant Unescaped(fmt, pLast) && NoTabFrom(fmt, pLast, pSrc)
        invariant found ==> pSrc <= so && TabAt(fmt, so, eo) && NoTabAt(fmt, pSrc, so)
        invariant !found ==> NoTabAt(fmt, pSrc, |fmt| + 1)
        invariant Fits(vsprintf, Parse(fmt[pLast..]), pCur, val)
        invariant all == Prepend(runs, Runs(vsprintf, Parse(fmt[pLast..]), pCur, val))
        invariant Canvas() == WriteAll([], runs)
        decreases |fmt| - pSrc
      {
        TabBytes(fmt, so, eo);
        var noTab := Escaped(fmt, so);
        if noTab {
          SkipTab(fmt, pLast, pSrc, so, eo);
          pSrc := eo;
        } else {
          TabStep(fmt, pLast, pSrc, so, eo);
          NoneYet(fmt, eo);
          ghost var l := Parse(fmt[pLast..]);
          RunsStep(vsprintf, l, pCur, val, runs);
          runs := runs + Printed(vsprintf, l.segment, pCur, val);
          var ok := TranslateTab(l, fmt[pLast..so], fmt[so + 1..eo - 1]);
          if !ok {
            return -1;
          }
          pSrc := eo;
          pLast := pSrc;
        }
        found, so, eo := FindTab(pb, fmt, pSrc);
      }
      EndStep(fmt, pLast, pSrc);
      RunsStep(vsprintf, End(fmt[pLast..]), pCur, val, runs);
      TranslateSegment(fmt[pLast..]);
      status := curLen;
    }
  }

  lemma Starting(fmt: Text)
    ensures Unescaped(fmt, 0) && NoTabFrom(fmt, 0, 0)
    ensures WriteAll([], []) == []
    ensures forall more :: Prepend([], more) == more
  {
    assert forall more: seq<Run> :: [] + more == more;
  }

  lemma NoneYet(fmt: Text, a: nat)
    ensures NoTabFrom(fmt, a, a)
  {
  }

  // One segment, and what the layout still writes after it.
  lemma RunsStep(f: Formatter, l: Layout, at: nat, args: seq<int>, runs: seq<Run>)
    requires Fits(f, l, at, args)
    ensures SegmentFits(f, l.segment, at, args)
    ensures
      var first := Printed(f, l.segment, at, args);
      && WriteAll(WriteAll([], runs), first) == WriteAll([], runs + first)
      && if l.End? then Prepend(runs, Runs(f, l, at, args)) == Some(runs + first)
         else
           var args' := Rest(f, l.segment, args);
           var col := Column(l.column, args');
           var args'' := AfterColumn(l.column, args');
           if col <= 0 || col > CMAX then Runs(f, l, at, args) == None
           else
             && Fits(f, l.rest, col - 1, args'')
             && Prepend(runs, Runs(f, l, at, args)) == Prepend(runs + first, Runs(f, l.rest, col - 1, args''))
  {
    hide WriteAll, SegmentFits, Rest, Column, AfterColumn;
    var first := Printed(f, l.segment, at, args);
    WriteAllAppend([], runs, first);
    if l.Tab? {
      var args' := Rest(f, l.segment, args);
      var col := Column(l.column, args');
      if ColumnOk(col) {
        var more := Runs(f, l.rest, col - 1, AfterColumn(l.column, args'));
        if more.Some? {
          assert runs + (first + more.value) == (runs + first) + more.value;
        }
      }
    }
  }

  // regcomp of the tab pattern.
  ghost predicate TabPattern(pb: PatternBuffer)
    reads pb, pb.buffer, pb.fastmap
  {
    pb.Valid() && pb.program == RegexCode(TabTree(), 0) && pb.fastmap == null
  }

  lemma TabPatternIs(pb: PatternBuffer)
    ensures TabPattern(pb) <==> pb.Valid() && pb.program == RegexCode(TabTree(), 0) && pb.fastmap == null
  {
  }

  lemma TabFound(fmt: Text, pSrc: nat, start: nat, end: nat)
    requires pSrc <= |fmt| && LongestPrefix(RegexLang(TabTree()), fmt[pSrc..], start, end)
    ensures TabAt(fmt, pSrc + start, pSrc + end)
  {
    hide RegexLang, TabTree, IsTab;
    TabLanguage(fmt[pSrc..][start..end]);
    assert fmt[pSrc..][start..end] == fmt[pSrc + start..pSrc + end];
  }

  lemma NoneFound(fmt: Text, pSrc: nat, n: nat)
    requires pSrc <= |fmt|
    requires forall x: nat | x < n && x <= |fmt| - pSrc :: !StandsAt(RegexLang(TabTree()), fmt[pSrc..], x)
    ensures NoTabAt(fmt, pSrc, pSrc + n)
  {
    hide RegexLang, TabTree, IsTab, StandsAt;
    forall k: nat, e: nat | pSrc <= k < pSrc + n
      ensures !TabAt(fmt, k, e)
    {
      if k <= e <= |fmt| {
        NotTab(fmt, pSrc, k, e);
      }
    }
  }

  lemma NotTab(fmt: Text, pSrc: nat, k: nat, e: nat)
    requires pSrc <= k <= e <= |fmt| && !StandsAt(RegexLang(TabTree()), fmt[pSrc..], k - pSrc)
    ensures !TabAt(fmt, k, e)
  {
    hide RegexLang, TabTree, IsTab;
    TabLanguage(fmt[k..e]);
    var y: nat := e - pSrc;
    assert fmt[pSrc..][k - pSrc..y] == fmt[k..e];
  }

  // No tab format starts from a up to b.
  ghost predicate NoTabAt(fmt: Text, a: nat, b: nat) {
    forall k: nat, e: nat | a <= k < b :: !TabAt(fmt, k, e)
  }

  ghost predicate NoTabFrom(fmt: Text, a: nat, b: nat) {
    forall k: nat, e: nat | a <= k < b :: !RealTab(fmt, k, e)
  }

  predicate Unescaped(fmt: Text, a: nat) {
    a == 0 || (a <= |fmt| && fmt[a - 1] != PERCENT)
  }

  function Prepend(runs: seq<Run>, more: Option<seq<Run>>): Option<seq<Run>> {
    if more == None then None else Some(runs + more.value)
  }

  lemma SkipTab(fmt: Text, pLast: nat, pSrc: nat, so: nat, eo: nat)
    requires pLast <= pSrc <= so && TabAt(fmt, so, eo) && PercentsBefore(fmt, so) % 2 == 1
    requires NoTabFrom(fmt, pLast, pSrc) && NoTabAt(fmt, pSrc, so)
    ensures NoTabFrom(fmt, pLast, eo)
  {
    hide TabAt, PercentsBefore;
    forall k: nat, e: nat | pLast <= k < eo
      ensures !RealTab(fmt, k, e)
    {
      if so < k {
        NoTabInside(fmt, so, eo, k, e);
      }
    }
  }

  lemma NoneInSuffix(fmt: Text, pLast: nat, b: nat)
    requires pLast <= b && pLast <= |fmt| && Unescaped(fmt, pLast) && NoTabFrom(fmt, pLast, b)
    ensures NoTabBefore(fmt[pLast..], b - pLast)
  {
    hide RealTab;
    var x, y := fmt[..pLast], fmt[pLast..];
    assert x + y == fmt;
    forall k: nat, e: nat | k < b - pLast
      ensures !RealTab(y, k, e)
    {
      RealInSuffix(x, y, k, e);
    }
  }

  lemma TabStep(fmt: Text, pLast: nat, pSrc: nat, so: nat, eo: nat)
    requires pLast <= pSrc <= so && TabAt(fmt, so, eo) && PercentsBefore(fmt, so) % 2 == 0
    requires Unescaped(fmt, pLast) && NoTabFrom(fmt, pLast, pSrc) && NoTabAt(fmt, pSrc, so)
    ensures so + 3 <= eo <= |fmt| && Unescaped(fmt, eo)
    ensures Parse(fmt[pLast..]) == Tab(fmt[pLast..so], fmt[so + 1..eo - 1], Parse(fmt[eo..]))
  {
    hide *;
    FirstInSuffix(fmt, pLast, pSrc, so, eo);
    TabEnds(fmt, so, eo);
    var y := fmt[pLast..];
    ParseTab(y, so - pLast, eo - pLast);
    assert y[..so - pLast] == fmt[pLast..so];
    assert y[so - pLast + 1..eo - pLast - 1] == fmt[so + 1..eo - 1];
    assert y[eo - pLast..] == fmt[eo..];
  }

  lemma TabEnds(fmt: Text, so: nat, eo: nat)
    requires TabAt(fmt, so, eo)
    ensures so + 3 <= eo <= |fmt| && Unescaped(fmt, eo)
  {
    TabBytes(fmt, so, eo);
  }

  lemma FirstInSuffix(fmt: Text, pLast: nat, pSrc: nat, so: nat, eo: nat)
    requires pLast <= pSrc <= so && TabAt(fmt, so, eo) && PercentsBefore(fmt, so) % 2 == 0
    requires Unescaped(fmt, pLast) && NoTabFrom(fmt, pLast, pSrc) && NoTabAt(fmt, pSrc, so)
    ensures pLast <= so <= eo <= |fmt| && FirstTab(fmt[pLast..], so - pLast, eo - pLast)
  {
    hide IsTab, PercentsBefore;
    assert NoTabFrom(fmt, pLast, so);
    NoneInSuffix(fmt, pLast, so);
    assert RealTab(fmt, so, eo);
    hide TabAt, RealTab, NoTabBefore, NoTabFrom, NoTabAt;
    var x, y := fmt[..pLast], fmt[pLast..];
    assert x + y == fmt;
    RealInSuffix(x, y, so - pLast, eo - pLast);
  }

  lemma EndStep(fmt: Text, pLast: nat, pSrc: nat)
    requires pLast <= pSrc <= |fmt| && Unescaped(fmt, pLast)
    requires NoTabFrom(fmt, pLast, pSrc) && NoTabAt(fmt, pSrc, |fmt| + 1)
    ensures Parse(fmt[pLast..]) == End(fmt[pLast..])
  {
    hide TabAt, PercentsBefore, Parse;
    NoneInSuffix(fmt, pLast, |fmt| + 1);
    var y := fmt[pLast..];
    forall k: nat, e: nat
      ensures !RealTab(y, k, e)
    {
      if k > |y| {
        BeyondEnd(y, k, e);
      }
    }
    ParseEnd(y);
  }

  lemma BeyondEnd(w: Text, k: nat, e: nat)
    requires k > |w|
    ensures !RealTab(w, k, e)
  {
  }

  lemma {:induction false} WriteAllAppend(canvas: Text, a: seq<Run>, b: seq<Run>)
    ensures WriteAll(WriteAll(canvas, a), b) == WriteAll(canvas, a + b)
    decreases |b|
  {
    hide Written;
    if b == [] {
      assert a + b == a;
    } else {
      var n := |b| - 1;
      WriteAllAppend(canvas, a, b[..n]);
      assert (a + b)[..|a + b| - 1] == a + b[..n];
    }
  }

  lemma PaddedFirst(canvas: Text, at: nat, text: Text)
    ensures Written(Padded(canvas, at), at, text) == Written(canvas, at, text)
    ensures |Padded(canvas, at)| >= at
  {
  }

  lemma OneRun(canvas: Text, run: Run)
    ensures WriteAll(canvas, [run]) == Written(canvas, run.at, run.text)
  {
    hide Written;
    assert [run][..0] == [];
  }

  // esprintf: what the program has written in the output; an empty format writes nothing.
  method Esprintf(output: array<byte>, fmt: Text, f: Formatter, args: seq<int>) returns (ok: bool)
    requires Fits(f, Parse(fmt), 0, args)
    requires Runs(f, Parse(fmt), 0, args).Some? ==> |WriteAll([], Runs(f, Parse(fmt), 0, args).value)| < output.Length
    modifies output
    ensures fmt == [] ==> ok && output[..] == old(output[..])
    ensures fmt != [] ==>
      match Runs(f, Parse(fmt), 0, args)
      case None => !ok && output[..] == old(output[..])
      case Some(runs) =>
        var n := |WriteAll([], runs)|;
        ok && n < output.Length && output[..n] == WriteAll([], runs) && output[n] == 0
           && output[n + 1..] == old(output[n + 1..])
  {
    hide WriteAll, Runs, Fits, Parse, TabTree, RegexCode, WellFormed, SimpleRegex, Harmless, Program;
    if fmt == [] {
      return true;
    }
    var b := new Buffer(f, args);
    TabTreeTame();
    var pb := RegComp(TabTree());
    var status := b.TranslateString(pb, fmt);
    if status < 0 {
      return false;
    }
    forall k | 0 <= k < status {
      output[k] := b.destbuf[k];
    }
    output[status] := 0;
    assert output[..status] == b.Canvas();
    return true;
  }
}
