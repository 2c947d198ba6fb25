/**
 The control string of a database: pairs of a letter and a value for the access mode, the
 precision and the byte order. What it asks for is settled together with the header found, and
 functions it does not mention get defaults, each when those before it have been settled.
 */
module ControlString {
  import opened Wrappers

  const BIG := 1
  const LITTLE := 2

  const PREC_LIMIT_DOUBLE := 2

  // What read_header finds: a header with its byte order and precision, one of an old format,
  // no family, or another error.
  datatype Header =
    | Found(endian: int, precision: int)
    | OldFormat(endian: int, precision: int)
    | NoFamily
    | Broken

  datatype Status = Ok | BadControlString | MappedOldHeader | FamilyNotFound | OtherError

  // The functions settled by the string or by default.
  datatype Function = AccessMode | PrecisionLimit | Endianness

  // ----- what a string asks for -----

  // The value of the first pair with the letter.
  function FirstOf(ctl: string, letter: char): Option<char> {
    if |ctl| < 2 then None
    else if ctl[0] == letter then Some(ctl[1])
    else FirstOf(ctl[2..], letter)
  }

  predicate LettersOk(ctl: string) {
    |ctl| >= 2 ==> (ctl[0] == 'A' || ctl[0] == 'P' || ctl[0] == 'E') && LettersOk(ctl[2..])
  }

  predicate AccessOk(v: Option<char>) {
    v.None? || v.value == 'w' || v.value == 'r' || v.value == 'a'
  }

  predicate EndianOk(v: Option<char>) {
    v.None? || v.value == 'b' || v.value == 'l' || v.value == 'n'
  }

  predicate WellFormed(ctl: string) {
    LettersOk(ctl) && AccessOk(FirstOf(ctl, 'A')) && EndianOk(FirstOf(ctl, 'E'))
  }

  // ----- what it means -----

  datatype Settings = Settings(mode: char, create: bool, precision: int, swapBytes: bool)

  datatype Outcome = Settled(settings: Settings) | Fails(status: Status)

  // The access mode, and whether the family is to be created.
  function Access(v: Option<char>, header: Header): (r: (Status, char, bool))
    requires AccessOk(v)
  {
    match v
    case Some(c) =>
      if c == 'w' then (Ok, 'w', true)
      else if header.Broken? then (OtherError, c, false)
      else if header.Found? then (Ok, c, false)
      else if c == 'r' then (if header.OldFormat? then (Ok, 'r', false) else (FamilyNotFound, 'r', false))
      else if header.NoFamily? then (Ok, 'a', true)
      else (MappedOldHeader, 'a', false)
    case None =>
      if header.Broken? then (OtherError, ' ', false)
      else if header.NoFamily? then (Ok, 'w', true)
      else (Ok, 'r', false)
  }

  predicate Native(endian: int, bigHost: bool) {
    (bigHost && endian == BIG) || (!bigHost && endian == LITTLE)
  }

  // An existing family keeps its byte order and precision; a new one has what is asked for.
  function Meaning(a: Option<char>, e: Option<char>, header: Header, bigHost: bool): Outcome
    requires AccessOk(a) && EndianOk(e)
  {
    var (status, mode, create) := Access(a, header);
    if status != Ok then Fails(status)
    else if create then
      Settled(Settings(mode, true, PREC_LIMIT_DOUBLE, !(e.None? || e.value == 'n' || (e.value == 'b' <==> bigHost))))
    else Settled(Settings(mode, false, header.precision, !Native(header.endian, bigHost)))
  }

  // A family is created when that is asked for, or when none is found and the string does not ask to
  // read; one of an old format is not appended to.
  lemma AccessMeans(v: Option<char>, header: Header)
    requires AccessOk(v)
    ensures
      var (status, mode, create) := Access(v, header);
      && (status == Ok <==>
            v == Some('w') || header.Found? || (header.OldFormat? && v != Some('a')) || (header.NoFamily? && v != Some('r')))
      && (status == Ok ==> (create <==> v == Some('w') || header.NoFamily?))
      && (status == Ok ==> mode == if v.Some? then v.value else if create then 'w' else 'r')
      && (status != Ok ==>
            status == if header.OldFormat? then MappedOldHeader else if header.NoFamily? then FamilyNotFound else OtherError)
  {
  }

  // In a header the byte order 1 is the big one and 2 the little one; a family is created with precision
  // 2 and the byte order asked for, big, little or the host's own.
  lemma NumbersMean(mode: char, e: Option<char>, precision: int, bigHost: bool)
    requires (mode == 'r' || mode == 'a') && EndianOk(e)
    ensures Meaning(Some(mode), e, Found(1, precision), bigHost) == Settled(Settings(mode, false, precision, !bigHost))
    ensures Meaning(Some(mode), e, Found(2, precision), bigHost) == Settled(Settings(mode, false, precision, bigHost))
    ensures Meaning(Some('w'), None, NoFamily, bigHost) == Settled(Settings('w', true, 2, false))
    ensures Meaning(Some('w'), Some('n'), NoFamily, bigHost) == Settled(Settings('w', true, 2, false))
    ensures Meaning(Some('w'), Some('b'), NoFamily, bigHost) == Settled(Settings('w', true, 2, !bigHost))
    ensures Meaning(Some('w'), Some('l'), NoFamily, bigHost) == Settled(Settings('w', true, 2, bigHost))
  {
  }

  // ----- order and repeats do not matter -----

  lemma {:induction false} InPrefix(x: string, y: string, letter: char)
    requires |x| % 2 == 0
    ensures FirstOf(x + y, letter) == if FirstOf(x, letter).Some? then FirstOf(x, letter) else FirstOf(y, letter)
    ensures LettersOk(x + y) <==> LettersOk(x) && LettersOk(y)
    decreases |x|
  {
    if x == [] {
      assert x + y == y;
    } else {
      assert (x + y)[2..] == x[2..] + y;
      InPrefix(x[2..], y, letter);
    }
  }

  lemma OnePair(p: string, letter: char)
    requires |p| == 2
    ensures FirstOf(p, letter) == if p[0] == letter then Some(p[1]) else None
    ensures LettersOk(p) <==> p[0] == 'A' || p[0] == 'P' || p[0] == 'E'
  {
  }

  // The two strings are both well-formed or neither is, and they ask for the same.
  predicate SameRequest(x: string, y: string) {
    (LettersOk(x) <==> LettersOk(y)) && FirstOf(x, 'A') == FirstOf(y, 'A') && FirstOf(x, 'E') == FirstOf(y, 'E')
  }

  // Two neighbouring pairs with different letters can be exchanged.
  lemma PairsExchanged(x: string, p: string, q: string, y: string)
    requires |x| % 2 == 0 && |p| == 2 == |q| && p[0] != q[0]
    ensures SameRequest(x + (p + (q + y)), x + (q + (p + y)))
  {
    ExchangedFor(x, p, q, y, 'A');
    ExchangedFor(x, p, q, y, 'E');
  }

  lemma ExchangedFor(x: string, p: string, q: string, y: string, letter: char)
    requires |x| % 2 == 0 && |p| == 2 == |q| && p[0] != q[0]
    ensures FirstOf(x + (p + (q + y)), letter) == FirstOf(x + (q + (p + y)), letter)
    ensures LettersOk(x + (p + (q + y))) <==> LettersOk(x + (q + (p + y)))
  {
    hide FirstOf, LettersOk;
    OnePair(p, letter);
    OnePair(q, letter);
    InPrefix(x, p + (q + y), letter);
    InPrefix(x, q + (p + y), letter);
    InPrefix(p, q + y, letter);
    InPrefix(q, p + y, letter);
    InPrefix(q, y, letter);
    InPrefix(p, y, letter);
  }

  // A precision, and a pair after another with its letter, change nothing.
  lemma PairIgnored(x: string, p: string, y: string)
    requires |x| % 2 == 0 && |p| == 2
    requires p[0] == 'P' || ((p[0] == 'A' || p[0] == 'E') && FirstOf(x, p[0]).Some?)
    ensures SameRequest(x + (p + y), x + y)
  {
    IgnoredFor(x, p, y, 'A');
    IgnoredFor(x, p, y, 'E');
  }

  lemma IgnoredFor(x: string, p: string, y: string, letter: char)
    requires |x| % 2 == 0 && |p| == 2 && (letter == 'A' || letter == 'E')
    requires p[0] == 'P' || ((p[0] == 'A' || p[0] == 'E') && FirstOf(x, p[0]).Some?)
    ensures FirstOf(x + (p + y), letter) == FirstOf(x + y, letter)
    ensures LettersOk(x + (p + y)) <==> LettersOk(x + y)
  {
    hide FirstOf, LettersOk;
    OnePair(p, letter);
    InPrefix(x, p + y, letter);
    InPrefix(x, y, letter);
    InPrefix(p, y, letter);
  }

  // ----- the parser -----

  function Settles(a: bool, p: bool, e: bool): nat {
    (if a then 1 else 0) + (if p then 1 else 0) + (if e then 1 else 0)
  }

  // How far the cycle is from the next function that can be settled.
  function Ahead(f: Function, a: bool, p: bool): nat {
    match f
    case AccessMode => if !a then 0 else if !p then 1 else 2
    case PrecisionLimit => if !a then 2 else if !p then 0 else 1
    case Endianness => if !a then 1 else if !p then 2 else 0
  }

  class Family {
    var accessMode: char
    var precisionLimit: int
    var swapBytes: bool
    var charHeader: Option<int>

    // What has been settled about the access mode so far.
    ghost predicate AccessRead(seen: Option<char>, header: Header, access: bool, precision: bool, create: bool)
      reads this
    {
      AccessOk(seen)
      && (if !access then seen == None && !precision && !create && charHeader == None
          else AccessSettled(seen, header, precision, create))
    }

    ghost predicate AccessSettled(a: Option<char>, header: Header, precision: bool, create: bool)
      requires AccessOk(a)
      reads this
    {
      Access(a, header) == (Ok, accessMode, create) && precision == !create
      && (!create ==> (header.Found? || header.OldFormat?) && precisionLimit == header.precision
                      && charHeader == Some(header.endian))
    }

    // read_header: sets the precision also when the header is of the old format.
    method ReadHeader(header: Header) returns (rval: Status)
      modifies this`charHeader, this`precisionLimit
      ensures old(charHeader).Some? ==> rval == OtherError && charHeader == old(charHeader)
      ensures old(charHeader).None? && (header.Found? || header.OldFormat?) ==>
        rval == (if header.Found? then Ok else MappedOldHeader)
        && precisionLimit == header.precision && charHeader == Some(header.endian)
      ensures old(charHeader).None? && header.NoFamily? ==> rval == FamilyNotFound && charHeader == None
      ensures old(charHeader).None? && header.Broken? ==> rval == OtherError && charHeader == None
    {
      if charHeader.Some? {
        return OtherError;
      }
      match header
      case Found(e, p) =>
        precisionLimit, charHeader := p, Some(e);
        rval := Ok;
      case OldFormat(e, p) =>
        precisionLimit, charHeader := p, Some(e);
        rval := MappedOldHeader;
      case NoFamily =>
        rval := FamilyNotFound;
      case Broken =>
        rval := OtherError;
    }

    // parse_control_string, for a family not opened yet; every letter is followed by a value.
    method ParseControlString(ctl: string, header: Header, bigHost: bool) returns (rval: Status, create: bool)
      requires |ctl| % 2 == 0 && charHeader == None
      modifies this
      ensures WellFormed(ctl) ==>
        match Meaning(FirstOf(ctl, 'A'), FirstOf(ctl, 'E'), header, bigHost)
        case Fails(status) => rval == status
        case Settled(s) =>
          rval == Ok && accessMode == s.mode && create == s.create
          && precisionLimit == s.precision && swapBytes == s.swapBytes
      ensures !WellFormed(ctl) ==>
        rval == BadControlString
        || (AccessOk(FirstOf(ctl, 'A')) && rval == Access(FirstOf(ctl, 'A'), header).0 != Ok)
    {
      var endianRequest: Option<char>, access, precision, count;
      rval, endianRequest, access, precision, create, count := ReadPairs(ctl, header);
      if rval != Ok {
        return;
      }
      rval, create, count :=
        SettleRest(FirstOf(ctl, 'A'), endianRequest, access, precision, create, count, header, bigHost);
    }

    // The loop over the pairs.
    method ReadPairs(ctl: string, header: Header)
      returns (rval: Status, endianRequest: Option<char>, access: bool, precision: bool, create: bool, count: nat)
      requires |ctl| % 2 == 0 && charHeader == None
      modifies this
      ensures rval == Ok ==>
        && WellFormed(ctl) && endianRequest == FirstOf(ctl, 'E')
        && count == Settles(access, precision, false) && AccessRead(FirstOf(ctl, 'A'), header, access, precision, create)
      ensures rval != Ok ==> BadRead(ctl, header, rval)
    {
      rval, endianRequest, access, precision, create, count := Ok, None, false, false, false, 0;
      var i := 0;
      ghost var seen: Option<char> := None;
      assert ctl[0..] == ctl;
      while i < |ctl| && rval == Ok
        invariant i <= |ctl| && i % 2 == 0
        invariant rval == Ok ==> count == Settles(access, precision, false)
        invariant rval == Ok ==> AccessRead(seen, header, access, precision, create) && EndianOk(endianRequest)
        invariant rval == Ok ==> (access <==> seen.Some?)
        invariant rval == Ok ==> (LettersOk(ctl) <==> LettersOk(ctl[i..]))
        invariant rval == Ok ==> FirstOf(ctl, 'A') == if seen.Some? then seen else FirstOf(ctl[i..], 'A')
        invariant rval == Ok ==> FirstOf(ctl, 'E') == if endianRequest.Some? then endianRequest else FirstOf(ctl[i..], 'E')
        invariant rval != Ok ==> BadRead(ctl, header, rval)
      {
        var c, v := ctl[i], ctl[i + 1];
        assert ctl[i..][2..] == ctl[i + 2..];
        if c == 'A' {
          if !access {
            seen := Some(v);
            rval, precision, create := ReadAccess(v, header);
            if rval == Ok {
              access := true;
              count := count + if precision then 2 else 1;
            }
          }
        } else if c == 'P' {
        } else if c == 'E' {
          if endianRequest.None? {
            if v == 'b' || v == 'l' || v == 'n' {
              endianRequest := Some(v);
            } else {
              rval := BadControlString;
            }
          }
        } else {
          rval := BadControlString;
        }
        i := i + 2;
      }
    }

    // The value of the first access pair.
    method ReadAccess(v: char, header: Header) returns (rval: Status, precision: bool, create: bool)
      requires charHeader == None
      modifies this
      ensures if AccessOk(Some(v)) then
          rval == Access(Some(v), header).0 && (rval == Ok ==> AccessSettled(Some(v), header, precision, create))
        else rval == BadControlString
    {
      rval, precision, create := Ok, false, false;
      if v == 'w' {
        accessMode, create := v, true;
      } else if v == 'r' || v == 'a' {
        accessMode := v;
        rval := ReadHeader(header);
        if rval == FamilyNotFound && v == 'a' {
          create, rval := true, Ok;
        } else if rval == Ok || (rval == MappedOldHeader && v == 'r') {
          precision, rval := true, Ok;
        }
      } else {
        rval := BadControlString;
      }
    }

    // The cycle over the functions until all are settled: a function passes until those it
    // needs are settled.
    method SettleRest(ghost a: Option<char>, endianRequest: Option<char>, access0: bool, precision0: bool,
                      create0: bool, count0: nat, header: Header, bigHost: bool)
      returns (rval: Status, create: bool, count: nat)
      requires EndianOk(endianRequest) && count0 == Settles(access0, precision0, false)
      requires AccessRead(a, header, access0, precision0, create0)
      modifies this
      ensures match Meaning(a, endianRequest, header, bigHost)
        case Fails(status) => rval == status
        case Settled(s) =>
          rval == Ok && count == 3 && accessMode == s.mode && create == s.create
          && precisionLimit == s.precision && swapBytes == s.swapBytes
    {
      rval, create, count := Ok, create0, count0;
      var access, precision, endian := access0, precision0, false;
      var f := AccessMode;
      while count < 3 && rval == Ok
        invariant rval == Ok ==> count == Settles(access, precision, endian)
        invariant rval == Ok ==> if access then AccessRead(a, header, access, !create, create) && (!create ==> precision)
                                 else AccessRead(a, header, access, precision, create) && !endian
        invariant rval == Ok && precision ==>
          access && precisionLimit == (if create then PREC_LIMIT_DOUBLE else header.precision)
        invariant rval == Ok && endian ==>
          access && precision && swapBytes == Meaning(a, endianRequest, header, bigHost).settings.swapBytes
        invariant rval != Ok ==> Meaning(a, endianRequest, header, bigHost) == Fails(rval)
        decreases rval == Ok, 3 - count, if rval == Ok then Ahead(f, access, precision) else 0
      {
        if f == AccessMode {
          if !access {
            rval := ReadHeader(header);
            if rval == Ok || rval == MappedOldHeader {
              accessMode := 'r';
              precision, count, rval := true, count + 1, Ok;
            } else if rval == FamilyNotFound {
              accessMode, create, rval := 'w', true, Ok;
            }
            access, count := true, count + 1;
          }
        } else if f == PrecisionLimit {
          if !precision && access {
            precisionLimit := PREC_LIMIT_DOUBLE;
            precision, count := true, count + 1;
          }
        } else if !endian && access && precision {
          SetSwap(endianRequest, create, bigHost);
          endian, count := true, count + 1;
        }
        f := match f case AccessMode => PrecisionLimit case PrecisionLimit => Endianness case Endianness => AccessMode;
      }
    }

    // Whether bytes are to be swapped.
    method SetSwap(endianRequest: Option<char>, create: bool, bigHost: bool)
      requires accessMode == 'r' || accessMode == 'w' || accessMode == 'a'
      requires EndianOk(endianRequest) && (accessMode == 'r' ==> !create) && (accessMode == 'w' ==> create)
      requires !create ==> charHeader.Some?
      modifies this`swapBytes
      ensures swapBytes ==
        if create then !(endianRequest.None? || endianRequest.value == 'n' || (endianRequest.value == 'b' <==> bigHost))
        else !Native(charHeader.value, bigHost)
    {
      if endianRequest.Some? {
        var e := endianRequest.value;
        if accessMode == 'r' {
          swapBytes := !((bigHost && charHeader.value == BIG) || (!bigHost && charHeader.value == LITTLE));
        } else if accessMode == 'w' {
          swapBytes := !(e == 'n' || (e == 'b' && bigHost) || (e == 'l' && !bigHost));
        } else if accessMode == 'a' && !create {
          swapBytes := !((bigHost && charHeader.value == BIG) || (!bigHost && charHeader.value == LITTLE));
        } else if accessMode == 'a' && create {
          swapBytes := !(e == 'n' || (e == 'b' && bigHost) || (e == 'l' && !bigHost));
        }
      } else if accessMode == 'r' || accessMode == 'a' {
        if create {
          swapBytes := false;
        } else {
          swapBytes := !((bigHost && charHeader.value == BIG) || (!bigHost && charHeader.value == LITTLE));
        }
      } else if accessMode == 'w' {
        swapBytes := false;
      }
    }
  }

  // Reading the pairs failed with this status: something is ill-formed, or the access mode.
  predicate BadRead(ctl: string, header: Header, rval: Status) {
    (rval == BadControlString && !WellFormed(ctl))
    || (FirstOf(ctl, 'A').Some? && AccessOk(FirstOf(ctl, 'A')) && rval == Access(FirstOf(ctl, 'A'), header).0 != Ok)
  }
}
