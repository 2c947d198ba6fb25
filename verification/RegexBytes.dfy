/**
 The bytes a compiled pattern is made of: opcodes, two-byte numbers and bitmaps.
 A byte is an integer below 256, so the shifts and masks of the C text become
 divisions and remainders.
 */
module RegexBytes {
  type byte = x: int | 0 <= x < 256

  const NO_OP: byte := 0
  const SUCCEED: byte := 1
  const EXACTN: byte := 2
  const ANYCHAR: byte := 3
  const CHARSET: byte := 4
  const CHARSET_NOT: byte := 5
  const START_MEMORY: byte := 6
  const STOP_MEMORY: byte := 7
  const JUMP: byte := 13
  const JUMP_PAST_ALT: byte := 14
  const ON_FAILURE_JUMP: byte := 15
  const POP_FAILURE_JUMP: byte := 17
  const MAYBE_POP_JUMP: byte := 18
  const DUMMY_FAILURE_JUMP: byte := 19
  const PUSH_DUMMY_FAILURE: byte := 20
  const SUCCEED_N: byte := 21
  const JUMP_N: byte := 22
  const SET_NUMBER_AT: byte := 23

  // ----- two-byte numbers -----

  // What STORE_NUMBER leaves in two bytes: the low sixteen bits of the number.
  function Low(n: int): byte { n % 256 }

  function High(n: int): byte { n / 256 % 256 }

  // EXTRACT_NUMBER: the second byte is sign-extended.
  function Extract(lo: byte, hi: byte): (n: int)
    ensures -32768 <= n <= 32767
  {
    lo + 256 * (if hi < 128 then hi else hi - 256)
  }

  // The two macros are inverse exactly on the range of a signed 16-bit number.
  lemma StoreThenExtract(n: int)
    ensures Extract(Low(n), High(n)) == n <==> -32768 <= n <= 32767
  {
    var q := n / 256;
    assert n == 256 * q + n % 256;
    if -32768 <= n <= 32767 {
      assert -128 <= q <= 127;
    }
  }

  lemma ExtractThenStore(lo: byte, hi: byte)
    ensures Low(Extract(lo, hi)) == lo && High(Extract(lo, hi)) == hi
  {
    var n := Extract(lo, hi);
    var s := if hi < 128 then hi else hi - 256;
    assert n == lo + 256 * s;
    assert n / 256 == s && n % 256 == lo;
  }

  // ----- bitmaps -----

  // Bit k of x: x & 1 << k.
  predicate Bit(x: nat, k: nat) {
    if k == 0 then x % 2 == 1 else Bit(x / 2, k - 1)
  }

  function Pow2(k: nat): nat {
    if k == 0 then 1 else 2 * Pow2(k - 1)
  }

  // x | 1 << k
  function WithBit(x: nat, k: nat): nat {
    if k == 0 then x / 2 * 2 + 1 else WithBit(x / 2, k - 1) * 2 + x % 2
  }

  lemma {:induction false} WithBitFits(x: nat, k: nat, width: nat)
    requires k < width && x < Pow2(width)
    ensures WithBit(x, k) < Pow2(width)
  {
    if k > 0 {
      WithBitFits(x / 2, k - 1, width - 1);
    }
  }

  lemma {:induction false} WithBitIs(x: nat, k: nat, m: nat)
    ensures Bit(WithBit(x, k), m) <==> m == k || Bit(x, m)
  {
    var y := WithBit(x, k);
    if k == 0 {
      assert y % 2 == 1 && y / 2 == x / 2;
    } else {
      var h := WithBit(x / 2, k - 1);
      assert y == h * 2 + x % 2;
      assert y % 2 == x % 2 && y / 2 == h;
      if m > 0 {
        WithBitIs(x / 2, k - 1, m - 1);
      }
    }
  }

  lemma {:induction false} ZeroHasNoBits(k: nat)
    ensures !Bit(0, k)
  {
    if k > 0 {
      ZeroHasNoBits(k - 1);
    }
  }

  // x & y != 0
  predicate Meets(x: byte, y: byte) {
    exists k: nat | k < 8 :: Bit(x, k) && Bit(y, k)
  }

  // (x & ~y) == 0
  predicate Within(x: byte, y: byte) {
    forall k: nat | k < 8 :: Bit(x, k) ==> Bit(y, k)
  }

  // A character too large to have a bit in the map is not in the set.
  predicate MapHas(map8: seq<byte>, c: byte) {
    c / 8 < |map8| && Bit(map8[c / 8], c % 8)
  }

  // SET_LIST_BIT
  function SetListBit(map8: seq<byte>, c: byte): (r: seq<byte>)
    requires |map8| == 32
    ensures |r| == 32
    ensures forall d: byte :: MapHas(r, d) <==> d == c || MapHas(map8, d)
  {
    assert Pow2(8) == 256;
    WithBitFits(map8[c / 8], c % 8, 8);
    var r := map8[c / 8 := WithBit(map8[c / 8], c % 8)];
    assert forall d: byte :: MapHas(r, d) <==> d == c || MapHas(map8, d) by {
      forall d: byte
        ensures MapHas(r, d) <==> d == c || MapHas(map8, d)
      {
        WithBitIs(map8[c / 8], c % 8, d % 8);
      }
    }
    r
  }

  // "Discard any list bytes that are all 0 at the end of the map."
  function Trim(map8: seq<byte>): (r: seq<byte>)
    ensures |r| <= |map8| && r == map8[..|r|]
    ensures r != [] ==> r[|r| - 1] != 0
    ensures forall c: byte :: MapHas(r, c) <==> MapHas(map8, c)
  {
    if map8 != [] && map8[|map8| - 1] == 0 then
      assert forall c: byte :: MapHas(map8, c) ==> c / 8 < |map8| - 1 by {
        forall c: byte | MapHas(map8, c)
          ensures c / 8 < |map8| - 1
        {
          ZeroHasNoBits(c % 8);
        }
      }
      Trim(map8[..|map8| - 1])
    else map8
  }
}
