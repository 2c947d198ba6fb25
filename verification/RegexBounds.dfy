/**
 The bounds of an interval: what is read from the text of one, `n}', `n,}' or `n,m}', are the
 numbers written there, and an interval that is too large or turned round is no interval.
 */
module RegexBounds {
  import opened Wrappers
  import opened Numerals
  import opened RegexBytes
  import opened RegexSyntax
  import opened RegexCompileSpec

  // ----- where a text stands in a pattern -----

  // The text w stands in the pattern at p.
  predicate Sub(pat: Text, p: nat, w: Text) {
    p + |w| <= |pat| && pat[p..p + |w|] == w
  }

  lemma SubParts(pat: Text, p: nat, u: Text, v: Text)
    requires Sub(pat, p, u + v)
    ensures Sub(pat, p, u) && Sub(pat, p + |u|, v)
  {
    assert pat[p..p + |u|] == (u + v)[..|u|];
    assert pat[p + |u|..p + |u| + |v|] == (u + v)[|u|..];
  }

  lemma SubFirst(pat: Text, p: nat, w: Text)
    requires Sub(pat, p, w) && w != []
    ensures p < |pat| && pat[p] == w[0] && Peek(pat, p) == w[0]
  {
    assert pat[p..p + |w|][0] == w[0];
  }

  // ----- numbers -----

  // The number after digits ds, num before them; -1 stands for none yet.
  function After(num: int, ds: Text): int
    decreases |ds|
  {
    if ds == [] then num
    else After((if num < 0 then 0 else num) * 10 + ds[0] - '0' as int, ds[1..])
  }

  lemma {:induction false} AfterOneMore(num: int, ds: Text, d: byte)
    ensures After(num, ds + [d]) == (if After(num, ds) < 0 then 0 else After(num, ds)) * 10 + d - '0' as int
    decreases |ds|
  {
    if ds == [] {
      assert (ds + [d])[1..] == [];
    } else {
      AfterOneMore((if num < 0 then 0 else num) * 10 + ds[0] - '0' as int, ds[1..], d);
      assert (ds + [d])[1..] == ds[1..] + [d];
    }
  }

  lemma {:induction false} DecimalRead(n: nat)
    ensures After(-1, Decimal(n)) == n
  {
    var d: byte := '0' as int + n % 10;
    if n < 10 {
      assert Decimal(n) == [] + [d];
      AfterOneMore(-1, [], d);
    } else {
      DecimalRead(n / 10);
      AfterOneMore(-1, Decimal(n / 10), d);
    }
  }

  // Digits are read up to the character after them.
  lemma {:induction false} DigitsRead(pat: Text, p: nat, c: byte, num: int, ds: Text, e: byte)
    requires Sub(pat, p, ds + [e]) && (forall k | 0 <= k < |ds| :: IsDigit(ds[k])) && !IsDigit(e)
    ensures GetNumber(pat, p, c, num) == (p + |ds| + 1, e, After(num, ds))
    decreases |ds|
  {
    SubFirst(pat, p, ds + [e]);
    if ds != [] {
      assert ds + [e] == [ds[0]] + (ds[1..] + [e]);
      SubParts(pat, p, [ds[0]], ds[1..] + [e]);
      DigitsRead(pat, p + 1, c, (if num < 0 then 0 else num) * 10 + ds[0] - '0' as int, ds[1..], e);
    }
  }

  lemma NumberRead(pat: Text, p: nat, c: byte, n: nat, e: byte)
    requires Sub(pat, p, Decimal(n) + [e]) && !IsDigit(e)
    ensures GetNumber(pat, p, c, -1) == (p + |Decimal(n)| + 1, e, n)
  {
    DecimalRead(n);
    DigitsRead(pat, p, c, -1, Decimal(n), e);
  }

  lemma BoundsRead(b: Bounds, pat: Text, p: nat)
    requires Sub(pat, p, BoundsText(b))
    ensures ReadBounds(pat, p) ==
      if InOrder(b) then Some((p + |BoundsText(b)|, Lower(b), Upper(b))) else None
  {
    hide Decimal, GetNumber, Sub;
    SubBound(pat, p, BoundsText(b));
    var n, brace, comma := Decimal(b.n), ['}' as int], [',' as int];
    match b {
      case Exactly(_) =>
        NumberRead(pat, p, '{' as int, b.n, '}' as int);
      case AtLeast(_) =>
        SubParts(pat, p, n + comma + [], brace);
        SubParts(pat, p, n + comma, []);
        NumberRead(pat, p, '{' as int, b.n, ',' as int);
        assert [] + brace == brace;
        DigitsRead(pat, p + |n| + 1, ',' as int, -1, [], '}' as int);
      case FromTo(_, m) =>
        assert n + comma + Decimal(m) + brace == n + comma + (Decimal(m) + brace);
        SubParts(pat, p, n + comma, Decimal(m) + brace);
        NumberRead(pat, p, '{' as int, b.n, ',' as int);
        NumberRead(pat, p + |n| + 1, ',' as int, m, '}' as int);
    }
  }

  lemma SubBound(pat: Text, p: nat, w: Text)
    requires Sub(pat, p, w) && w != []
    ensures p < |pat|
  {
  }
}
