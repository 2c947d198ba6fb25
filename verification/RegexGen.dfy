/**
 What a tree compiles to, piece by piece. The compiler itself reads characters and
 inserts and back-patches jumps; this module says, compositionally, which bytes it
 must end up with. All jumps are relative, so a block of code means the same wherever
 it stands.
 */
module RegexGen {
  import opened RegexBytes
  import opened RegexSyntax

  type Code = seq<byte>

  const MAX_REGNUM := 255

  // A three-byte instruction: an opcode and a relative address.
  function Op1(op: byte, arg: int): (r: Code)
    ensures |r| == 3
  {
    [op, Low(arg), High(arg)]
  }

  // A five-byte instruction: an opcode, a relative address and a number.
  function Op2(op: byte, arg1: int, arg2: int): (r: Code)
    ensures |r| == 5
  {
    [op, Low(arg1), High(arg1), Low(arg2), High(arg2)]
  }

  // ----- bracket expressions -----

  // The bits of lo..hi, as compile_range sets them.
  function SetRange(map8: seq<byte>, lo: byte, hi: byte): (r: seq<byte>)
    requires |map8| == 32
    ensures |r| == 32
    ensures forall d: byte :: MapHas(r, d) <==> lo <= d <= hi || MapHas(map8, d)
    decreases hi - lo
  {
    if lo > hi then map8
    else if lo == hi then SetListBit(map8, lo)
    else SetRange(SetListBit(map8, lo), lo + 1, hi)
  }

  function SetItem(map8: seq<byte>, it: Item): (r: seq<byte>)
    requires |map8| == 32
    ensures |r| == 32
    ensures forall d: byte :: MapHas(r, d) <==> ItemHas(it, d) || MapHas(map8, d)
  {
    match it
    case One(c) => SetListBit(map8, c)
    case Range(lo, hi) => SetRange(map8, lo, hi)
  }

  function SetItems(map8: seq<byte>, items: seq<Item>): (r: seq<byte>)
    requires |map8| == 32
    ensures |r| == 32
    ensures forall d: byte :: MapHas(r, d) <==> ItemsHave(items, d) || MapHas(map8, d)
    decreases |items|
  {
    if items == [] then map8
    else
      assert items == [items[0]] + items[1..];
      SetItems(SetItem(map8, items[0]), items[1..])
  }

  function ZeroMap(): (r: seq<byte>)
    ensures |r| == 32
    ensures forall d: byte :: !MapHas(r, d)
  {
    assert forall d: byte :: !Bit(0, d % 8) by {
      forall d: byte
        ensures !Bit(0, d % 8)
      {
        ZeroHasNoBits(d % 8);
      }
    }
    seq(32, _ => 0)
  }

  function BracketMap(br: Bracket): (r: seq<byte>)
    ensures |r| == 32
    ensures forall d: byte :: MapHas(r, d) <==> BracketHas(br, d) != br.negated
  {
    var m0 := ZeroMap();
    var m1 := if br.closeFirst then SetListBit(m0, ']' as int) else m0;
    var m2 := SetItems(m1, br.items);
    if br.hyphenLast then SetListBit(m2, '-' as int) else m2
  }

  function BracketCode(br: Bracket): (r: Code)
    ensures 2 <= |r| <= 34
  {
    var map8 := Trim(BracketMap(br));
    [if br.negated then CHARSET_NOT else CHARSET, |map8|] + map8
  }

  // ----- groups: how many registers a tree uses -----

  function GroupsA(a: Atom): nat {
    if a.Group? then 1 + GroupsR(a.r) else 0
  }

  function GroupsB(b: Branch): nat {
    if b.Empty? then 0 else GroupsA(b.first.atom) + GroupsB(b.rest)
  }

  function GroupsR(r: Regex): nat {
    GroupsB(r.branch) + if r.Or? then GroupsR(r.rest) else 0
  }

  // ----- code -----

  // A run of literal characters.
  function Flush(run: Text): Code
    requires |run| <= 255
  {
    if run == [] then [] else [EXACTN, |run|] + run
  }

  // Lines 2000-2058: the jumps put around an operand.
  function RepCode(body: Code, zeroOk: bool, manyOk: bool): Code {
    (if zeroOk then [] else Op1(DUMMY_FAILURE_JUMP, 3))
    + Op1(ON_FAILURE_JUMP, |body| + if manyOk then 3 else 0)
    + body
    + (if manyOk then Op1(MAYBE_POP_JUMP, -|body| - 6) else [])
  }

  // The code of an interval: numbers to be set, a counted failure jump, the operand, and a
  // counted jump back; the last and its number only if more than one is allowed.
  function IntervalCode(X: Code, lower: nat, upper: nat): Code {
    if upper == 0 then Op1(JUMP, |X|) + X
    else if upper == 1 then Op2(SET_NUMBER_AT, 5, lower) + (Op2(SUCCEED_N, |X| + 2, lower) + X)
    else
      Op2(SET_NUMBER_AT, |X| + 15, upper - 1)
      + (Op2(SET_NUMBER_AT, 5, lower)
         + (Op2(SUCCEED_N, |X| + 7, lower) + (X + Op2(JUMP_N, -|X| - 8, upper - 1))))
  }

  function PostCode(X: Code, post: Post): Code {
    match post
    case Again(ops) => RepCode(X, ZeroOk(ops), ManyOk(ops))
    case Times(b) => IntervalCode(X, Lower(b), Upper(b))
  }

  // Each repetition and each interval is put around all that is before it.
  function PostsCode(X: Code, posts: seq<Post>): Code
    decreases |posts|
  {
    if posts == [] then X else PostsCode(PostCode(X, posts[0]), posts[1..])
  }

  // Lines 2332-2440: the memory instructions around a group. Groups past the
  // last register a byte can name leave none.
  function GroupCode(body: Code, regnum: nat, inner: nat, alternatives: bool): Code {
    (if regnum <= MAX_REGNUM then [START_MEMORY, regnum, inner % 256] else [])
    + body
    + (if alternatives then [PUSH_DUMMY_FAILURE] else [])
    + (if regnum <= MAX_REGNUM then [STOP_MEMORY, regnum, inner % 256] else [])
  }

  // `reg` is the number of groups opened so far.
  function AtomCode(a: Atom, reg: nat): Code
    decreases a
  {
    match a
    case Chr(c) => [EXACTN, 1, c]
    case Dot => [ANYCHAR]
    case Set(br) => BracketCode(br)
    case Group(r) => GroupCode(RegexCode(r, reg + 1), reg + 1, GroupsR(r), r.Or?)
  }

  function PieceCode(p: Piece, reg: nat): Code
    decreases p
  {
    match p
    case Single(a) => AtomCode(a, reg)
    case Rep(a, ops) => RepCode(AtomCode(a, reg), ZeroOk(ops), ManyOk(ops))
    case Bounded(a, posts) => PostsCode(AtomCode(a, reg), posts)
  }

  predicate IsLiteral(p: Piece) {
    p.Single? && p.atom.Chr?
  }

  // `run` holds the literal characters not yet put into an exactn.
  function BranchCode(b: Branch, run: Text, reg: nat): Code
    requires |run| <= 255
    decreases b
  {
    match b
    case Empty => Flush(run)
    case Then(p, rest) =>
      if IsLiteral(p) then
        if 0 < |run| < 255 then BranchCode(rest, run + [p.atom.c], reg)
        else Flush(run) + BranchCode(rest, [p.atom.c], reg)
      else Flush(run) + PieceCode(p, reg) + BranchCode(rest, [], reg + GroupsA(p.atom))
  }

  // Lines 2446-2485: the first alternative, the jump past the rest, the rest. That jump
  // lands on the next alternative's own jump, or on what follows the last alternative.
  function RegexCode(r: Regex, reg: nat): Code
    decreases r
  {
    match r
    case Last(b) => BranchCode(b, [], reg)
    case Or(b, rest) =>
      var first := BranchCode(b, [], reg);
      var more := RegexCode(rest, reg + GroupsB(b));
      Op1(ON_FAILURE_JUMP, |first| + 3) + first
      + Op1(JUMP_PAST_ALT, FirstAltEnd(rest, reg + GroupsB(b))) + more
  }

  // Where, inside the code of `r`, its first alternative ends.
  function FirstAltEnd(r: Regex, reg: nat): nat
    decreases r, 0
  {
    match r
    case Last(b) => |BranchCode(b, [], reg)|
    case Or(b, _) => 3 + |BranchCode(b, [], reg)|
  }
}
