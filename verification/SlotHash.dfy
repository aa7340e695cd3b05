/** From a key to its slot: CRC-16/XMODEM and the hash tag. */
module SlotHash {
  import opened Polynomials
  import opened SlotRanges

  type Octets = seq<bv8>

  predicate IsMask(m: bv16) {
    m == 0x0001 || m == 0x0002 || m == 0x0004 || m == 0x0008 ||
    m == 0x0010 || m == 0x0020 || m == 0x0040 || m == 0x0080 ||
    m == 0x0100 || m == 0x0200 || m == 0x0400 || m == 0x0800 ||
    m == 0x1000 || m == 0x2000 || m == 0x4000 || m == 0x8000
  }

  function Mask(i: nat): (m: bv16)
    requires i < 16
    ensures IsMask(m)
  {
    if i == 0 then 0x0001
    else if i == 1 then 0x0002
    else if i == 2 then 0x0004
    else if i == 3 then 0x0008
    else if i == 4 then 0x0010
    else if i == 5 then 0x0020
    else if i == 6 then 0x0040
    else if i == 7 then 0x0080
    else if i == 8 then 0x0100
    else if i == 9 then 0x0200
    else if i == 10 then 0x0400
    else if i == 11 then 0x0800
    else if i == 12 then 0x1000
    else if i == 13 then 0x2000
    else if i == 14 then 0x4000
    else 0x8000
  }

  function Low(b: bv8): bv16 { b as bv16 }

  /** The byte as it enters the register. */
  function High(b: bv8): bv16 { (b as bv16) << 8 }

  /** One bit of a 16-bit word. */
  predicate Bit(c: bv16, i: nat) { i < 16 && On(c, Mask(i)) }

  predicate On(c: bv16, m: bv16) { c & m != 0 }

  function Bits(c: bv16): Poly { set i | 0 <= i < 16 && Bit(c, i) }

  /** The message as a polynomial, first byte first, high bit first. */
  function Message(data: Octets): Poly {
    if |data| == 0 then {} else Add(Shift(Message(data[..|data| - 1]), 8), Bits(Low(data[|data| - 1])))
  }

  // --------------------------------------------------------- words and polynomials

  lemma XorMask(a: bv16, b: bv16, m: bv16)
    requires IsMask(m)
    ensures On(a ^ b, m) <==> (On(a, m) != On(b, m))
  {}

  lemma BitXor(a: bv16, b: bv16, i: nat)
    ensures Bit(a ^ b, i) <==> (Bit(a, i) != Bit(b, i))
  {
    hide IsMask, Mask, On;
    if i < 16 { XorMask(a, b, Mask(i)); }
  }

  lemma BitsXor(a: bv16, b: bv16)
    ensures Bits(a ^ b) == Add(Bits(a), Bits(b))
  {
    forall i: nat ensures i in Bits(a ^ b) <==> i in Add(Bits(a), Bits(b)) { BitXor(a, b, i); }
  }

  lemma DoubleMask(c: bv16, m: bv16)
    requires IsMask(m) && m != 0x8000
    ensures On(c << 1, m << 1) <==> On(c, m)
  {}

  lemma DoubleIsEven(c: bv16)
    ensures !On(c << 1, 0x0001)
  {}

  lemma NextMask(i: nat)
    requires i < 15
    ensures Mask(i + 1) == Mask(i) << 1 && Mask(i) != 0x8000
  {}

  /** Shifting a word left moves every bit but the top one up. */
  lemma BitDouble(c: bv16, i: nat)
    ensures Bit(c << 1, i) <==> 0 < i < 16 && Bit(c, i - 1)
  {
    hide IsMask, Mask, On;
    if 0 < i < 16 {
      NextMask(i - 1);
      DoubleMask(c, Mask(i - 1));
    } else {
      LowMask();
      DoubleIsEven(c);
    }
  }

  lemma LowMask()
    ensures Mask(0) == 0x0001
  {}

  lemma ByteUpMask(b: bv8, m: bv16)
    requires IsMask(m) && m < 0x0100
    ensures On(High(b), m << 8) <==> On(Low(b), m)
    ensures !On(High(b), m) && !On(Low(b), m << 8)
  {}

  lemma HighMask(i: nat)
    requires i < 8
    ensures Mask(i + 8) == Mask(i) << 8 && Mask(i) < 0x0100
  {}

  lemma BitByteUp(b: bv8, i: nat)
    ensures Bit(High(b), i) <==> i >= 8 && Bit(Low(b), i - 8)
  {
    hide IsMask, Mask, On, High, Low;
    if i < 8 {
      HighMask(i);
      ByteUpMask(b, Mask(i));
    } else if i < 16 {
      HighMask(i - 8);
      ByteUpMask(b, Mask(i - 8));
    } else if i < 24 {
      HighMask(i - 16);
      ByteUpMask(b, Mask(i - 16));
    }
  }

  lemma SixteenBits(x: bv16)
    requires !On(x, 0x0001) && !On(x, 0x0002) && !On(x, 0x0004) && !On(x, 0x0008)
    requires !On(x, 0x0010) && !On(x, 0x0020) && !On(x, 0x0040) && !On(x, 0x0080)
    requires !On(x, 0x0100) && !On(x, 0x0200) && !On(x, 0x0400) && !On(x, 0x0800)
    requires !On(x, 0x1000) && !On(x, 0x2000) && !On(x, 0x4000) && !On(x, 0x8000)
    ensures x == 0
  {}

  lemma XorZero(a: bv16, b: bv16)
    requires a ^ b == 0
    ensures a == b
  {}

  lemma NoBit(a: bv16, b: bv16, i: nat)
    requires Bits(a) == Bits(b) && i < 16
    ensures !On(a ^ b, Mask(i))
  {
    hide On, Mask;
    BitXor(a, b, i);
    assert i in Bits(a) <==> i in Bits(b);
  }

  /** A word is determined by its bits. */
  lemma WordsEqual(a: bv16, b: bv16)
    requires Bits(a) == Bits(b)
    ensures a == b
  {
    hide IsMask, Bits, On;
    NoBit(a, b, 0);
    NoBit(a, b, 1);
    NoBit(a, b, 2);
    NoBit(a, b, 3);
    NoBit(a, b, 4);
    NoBit(a, b, 5);
    NoBit(a, b, 6);
    NoBit(a, b, 7);
    NoBit(a, b, 8);
    NoBit(a, b, 9);
    NoBit(a, b, 10);
    NoBit(a, b, 11);
    NoBit(a, b, 12);
    NoBit(a, b, 13);
    NoBit(a, b, 14);
    NoBit(a, b, 15);
    SixteenBits(a ^ b);
    XorZero(a, b);
  }

  // -------------------------------------------------------------- the checksum

  /** One turn of the bit loop. */
  function Turn(c: bv16): bv16 {
    if c & 0x8000 != 0 then (c << 1) ^ 0x1021 else c << 1
  }

  /** What the turn adds to the quotient. */
  function Carry(c: bv16): Poly { if Bit(c, 15) then {0} else {} }

  lemma TopBit(c: bv16)
    ensures Bit(c, 15) <==> c & 0x8000 != 0
  {}

  lemma DoubleBits(c: bv16)
    ensures Shift(Bits(c), 1) == Bits(c << 1) + if Bit(c, 15) then {16} else {}
    ensures 16 !in Bits(c << 1)
  {
    hide Bit;
    forall e: nat ensures e in Shift(Bits(c), 1) <==> e in Bits(c << 1) + if Bit(c, 15) then {16} else {} {
      InShift(Bits(c), 1, e);
      BitDouble(c, e);
      if e > 0 { BitBelow(c, e - 1); }
    }
  }

  lemma BitBelow(c: bv16, i: nat)
    ensures Bit(c, i) ==> i < 16
  {}

  lemma GeneratorBits()
    ensures Bits(0x1021) == {0, 5, 12}
    ensures TimesG({0}) == {0, 5, 12, 16} && TimesG({}) == {}
  {
    assert Shift({0}, 16) == {16} && Shift({0}, 12) == {12} && Shift({0}, 5) == {5};
    assert Shift({}, 16) == {} && Shift({}, 12) == {} && Shift({}, 5) == {};
    ConstantBits();
  }

  lemma ConstantBits()
    ensures Bits(0x1021) == {0, 5, 12}
  {
    assert forall i: nat :: i < 16 ==> (Bit(0x1021, i) <==> i == 0 || i == 5 || i == 12);
  }

  /** A turn is a division step: x times the register is a multiple of the generator plus the new register. */
  lemma TurnDivides(c: bv16)
    ensures Shift(Bits(c), 1) == Add(TimesG(Carry(c)), Bits(Turn(c)))
  {
    hide Bit, Bits, TimesG, Shift;
    TopBit(c);
    DoubleBits(c);
    GeneratorBits();
    if Bit(c, 15) { BitsXor(c << 1, 0x1021); }
  }

  lemma QuotientGrows(start: Poly, i: nat, q: Poly, c: bv16)
    requires Shift(start, i) == Add(TimesG(q), Bits(c))
    ensures Shift(start, i + 1) == Add(TimesG(Add(Shift(q, 1), Carry(c))), Bits(Turn(c)))
  {
    hide Add, Shift, TimesG, Bits, Carry, Turn;
    ShiftShift(start, i, 1);
    ShiftAdd(TimesG(q), Bits(c), 1);
    TimesGShift(q, 1);
    TurnDivides(c);
    AddAssoc(TimesG(Shift(q, 1)), TimesG(Carry(c)), Bits(Turn(c)));
    TimesGAdd(Shift(q, 1), Carry(c));
  }

  /** `c` is the remainder of message times x^16 modulo x^16 + x^12 + x^5 + 1. */
  ghost predicate IsRemainder(data: Octets, c: bv16) {
    exists q :: Shift(Message(data), 16) == Add(TimesG(q), Bits(c))
  }

  lemma ByteUp(b: bv8)
    ensures Bits(High(b)) == Shift(Bits(Low(b)), 8)
  {
    hide Bit, High, Low;
    forall e: nat ensures e in Bits(High(b)) <==> e in Shift(Bits(Low(b)), 8) {
      InShift(Bits(Low(b)), 8, e);
      BitByteUp(b, e);
      BitBelow(High(b), e);
      if e >= 8 { BitBelow(Low(b), e - 8); }
    }
  }

  /** The next byte goes into the top of the register: the eight turns then carry the whole message on. */
  lemma NextByte(data: Octets, k: nat, q: Poly, c: Poly, r: Poly, next: Poly)
    requires k < |data|
    requires Shift(Message(data[..k]), 16) == Add(TimesG(q), c)
    requires Shift(Add(c, Shift(Bits(Low(data[k])), 8)), 8) == Add(TimesG(r), next)
    ensures Shift(Message(data[..k + 1]), 16) == Add(TimesG(Add(Shift(q, 8), r)), next)
  {
    hide Add, Shift, TimesG, Bits, Low;
    assert data[..k + 1][..k] == data[..k];
    NextTerm(Message(data[..k]), Bits(Low(data[k])), q, c, r, next);
  }

  lemma ByteIn(c: bv16, b: bv8)
    ensures Bits(c ^ High(b)) == Add(Bits(c), Shift(Bits(Low(b)), 8))
  {
    hide Add, Shift, Bits, High, Low;
    ByteUp(b);
    BitsXor(c, High(b));
  }

  /** The same on polynomials: x^16 (x^8 m + b) = x^8 (x^16 m) + x^8 (x^8 b). */
  lemma NextTerm(m: Poly, b: Poly, q: Poly, c: Poly, r: Poly, next: Poly)
    requires Shift(m, 16) == Add(TimesG(q), c)
    requires Shift(Add(c, Shift(b, 8)), 8) == Add(TimesG(r), next)
    ensures Shift(Add(Shift(m, 8), b), 16) == Add(TimesG(Add(Shift(q, 8), r)), next)
  {
    hide Add, Shift, TimesG;
    calc {
      Shift(Add(Shift(m, 8), b), 16);
      { ShiftAdd(Shift(m, 8), b, 16); ShiftShift(m, 8, 16); ShiftShift(m, 16, 8); ShiftShift(b, 8, 8); }
      Add(Shift(Shift(m, 16), 8), Shift(Shift(b, 8), 8));
      { ShiftAdd(TimesG(q), c, 8); TimesGShift(q, 8); }
      Add(Add(TimesG(Shift(q, 8)), Shift(c, 8)), Shift(Shift(b, 8), 8));
      { AddAssoc(TimesG(Shift(q, 8)), Shift(c, 8), Shift(Shift(b, 8), 8)); ShiftAdd(c, Shift(b, 8), 8); }
      Add(TimesG(Shift(q, 8)), Add(TimesG(r), next));
      { AddAssoc(TimesG(Shift(q, 8)), TimesG(r), next); TimesGAdd(Shift(q, 8), r); }
      Add(TimesG(Add(Shift(q, 8), r)), next);
    }
  }

  /** crc16: the register ends as the polynomial remainder, for every byte string. */
  method Crc16(data: Octets) returns (crc: bv16)
    ensures IsRemainder(data, crc)
  {
    hide Add, Shift, TimesG, Bits, Carry, High, Low;
    crc := 0;
    ghost var q: Poly := {};
    var k := 0;
    Empty(data[..0]);
    while k < |data|
      invariant 0 <= k <= |data|
      invariant Shift(Message(data[..k]), 16) == Add(TimesG(q), Bits(crc))
    {
      ghost var before := Bits(crc);
      ByteIn(crc, data[k]);
      crc := crc ^ High(data[k]);
      ghost var r;
      crc, r := EightTurns(crc);
      NextByte(data, k, q, before, r, Bits(crc));
      q := Add(Shift(q, 8), r);
      k := k + 1;
    }
    assert data[..k] == data;
  }

  method EightTurns(start: bv16) returns (crc: bv16, ghost r: Poly)
    ensures Shift(Bits(start), 8) == Add(TimesG(r), Bits(crc))
  {
    hide Add, Shift, TimesG, Bits, Carry;
    crc, r := start, {};
    NoTurns(start);
    var i := 0;
    while i < 8
      invariant 0 <= i <= 8
      invariant Shift(Bits(start), i) == Add(TimesG(r), Bits(crc))
    {
      QuotientGrows(Bits(start), i, r, crc);
      r := Add(Shift(r, 1), Carry(crc));
      if crc & 0x8000 != 0 {
        crc := (crc << 1) ^ 0x1021;
      } else {
        crc := crc << 1;
      }
      i := i + 1;
    }
  }

  lemma NoTurns(c: bv16)
    ensures Shift(Bits(c), 0) == Add(TimesG({}), Bits(c))
  {
    hide Bits;
    ShiftZero(Bits(c));
    GeneratorBits();
  }

  lemma Empty(data: Octets)
    requires |data| == 0
    ensures Shift(Message(data), 16) == Add(TimesG({}), Bits(0))
  {
    GeneratorBits();
    NoBits();
  }

  lemma NoBits()
    ensures Bits(0) == {}
  {
    assert forall i: nat :: i < 16 ==> !Bit(0, i);
  }

  /** There is one such word. */
  lemma RemainderIsUnique(data: Octets, c: bv16, d: bv16)
    requires IsRemainder(data, c) && IsRemainder(data, d)
    ensures c == d
  {
    hide Add, Shift, TimesG, Bits;
    var q :| Shift(Message(data), 16) == Add(TimesG(q), Bits(c));
    var q2 :| Shift(Message(data), 16) == Add(TimesG(q2), Bits(d));
    BitsBelow(c);
    BitsBelow(d);
    RemainderUnique(Shift(Message(data), 16), q, Bits(c), q2, Bits(d));
    WordsEqual(c, d);
  }

  lemma BitsBelow(c: bv16)
    ensures Below(Bits(c), 16)
  {}

  function Xor(a: Octets, b: Octets): Octets
    requires |a| == |b|
  {
    seq(|a|, i requires 0 <= i < |a| => a[i] ^ b[i])
  }

  lemma LowXor(a: bv8, b: bv8)
    ensures Low(a ^ b) == Low(a) ^ Low(b)
  {}

  lemma {:induction false} MessageXor(a: Octets, b: Octets)
    requires |a| == |b|
    ensures Message(Xor(a, b)) == Add(Message(a), Message(b))
  {
    hide Add, Shift, Bits, Low;
    if |a| == 0 {
      assert Add({}, {}) == {} by { NothingAdded(); }
    } else {
      var n := |a| - 1;
      assert Xor(a, b)[..n] == Xor(a[..n], b[..n]);
      MessageXor(a[..n], b[..n]);
      LowXor(a[n], b[n]);
      MessageStep(Message(a[..n]), Message(b[..n]), Low(a[n]), Low(b[n]));
    }
  }

  lemma MessageStep(p: Poly, q: Poly, x: bv16, y: bv16)
    ensures Add(Shift(Add(p, q), 8), Bits(x ^ y)) == Add(Add(Shift(p, 8), Bits(x)), Add(Shift(q, 8), Bits(y)))
  {
    hide Add, Shift, Bits;
    BitsXor(x, y);
    ShiftAdd(p, q, 8);
    AddSwap(Shift(p, 8), Shift(q, 8), Bits(x), Bits(y));
  }

  lemma NothingAdded()
    ensures Add({}, {}) == {}
  {}

  /** The checksum is linear: the checksum of two strings xored is the xor of theirs. */
  lemma ChecksumLinear(a: Octets, b: Octets, ca: bv16, cb: bv16)
    requires |a| == |b| && IsRemainder(a, ca) && IsRemainder(b, cb)
    ensures IsRemainder(Xor(a, b), ca ^ cb)
  {
    hide Add, Shift, TimesG, Bits;
    var qa :| Shift(Message(a), 16) == Add(TimesG(qa), Bits(ca));
    var qb :| Shift(Message(b), 16) == Add(TimesG(qb), Bits(cb));
    MessageXor(a, b);
    ShiftAdd(Message(a), Message(b), 16);
    AddSwap(TimesG(qa), Bits(ca), TimesG(qb), Bits(cb));
    TimesGAdd(qa, qb);
    BitsXor(ca, cb);
    assert Shift(Message(Xor(a, b)), 16) == Add(TimesG(Add(qa, qb)), Bits(ca ^ cb));
  }

  // --------------------------------------------------------------------- slots

  const OPEN: bv8 := 0x7B
  const CLOSE: bv8 := 0x7D

  /** The first index of a byte, or the length. */
  function Find(s: Octets, b: bv8): (i: nat)
    ensures i <= |s| && (i < |s| ==> s[i] == b) && forall k :: 0 <= k < i ==> s[k] != b
  {
    if |s| == 0 || s[0] == b then 0 else 1 + Find(s[1..], b)
  }

  lemma FindIs(s: Octets, b: bv8, i: nat)
    requires i < |s| && s[i] == b && forall k :: 0 <= k < i ==> s[k] != b
    ensures Find(s, b) == i
  {
    assert !(Find(s, b) > i) && !(Find(s, b) < i);
  }

  method IndexByte(s: Octets, b: bv8) returns (i: nat)
    ensures i == Find(s, b)
  {
    i := 0;
    while i < |s|
      invariant 0 <= i <= |s| && forall k :: 0 <= k < i ==> s[k] != b
    {
      if s[i] == b { break; }
      i := i + 1;
    }
    assert i < |s| ==> Find(s, b) <= i;
  }

  /** The part of a key that is hashed: what stands between the first brace and the next closing one. */
  function HashPart(key: Octets): Octets {
    var start := Find(key, OPEN);
    if start == |key| then key
    else
      var end := Find(key[start + 1..], CLOSE);
      if end == |key[start + 1..]| then key else key[start + 1..start + 1 + end]
  }

  /** `slot` is the hash of the key. */
  ghost predicate IsSlotOf(key: Octets, slot: nat) {
    exists c: bv16 :: IsRemainder(HashPart(key), c) && slot == (c as int) % SLOT_COUNT
  }

  method Slot(key: Octets) returns (slot: nat)
    ensures slot < SLOT_COUNT && IsSlotOf(key, slot)
  {
    var start := IndexByte(key, OPEN);
    var part := key;
    if start < |key| {
      var end := IndexByte(key[start + 1..], CLOSE);
      if end < |key| - start - 1 { part := key[start + 1..start + 1 + end]; }
    }
    assert part == HashPart(key);
    hide IsRemainder, HashPart;
    var crc := Crc16(part);
    slot := (crc as int) % SLOT_COUNT;
    assert IsRemainder(HashPart(key), crc);
  }

  /** The tag of a key that has one, the empty tag included. */
  lemma TagIsHashed(before: Octets, tag: Octets, after: Octets)
    requires OPEN !in before && CLOSE !in tag
    ensures HashPart(before + [OPEN] + tag + [CLOSE] + after) == tag
  {
    hide Find;
    var key := before + [OPEN] + tag + [CLOSE] + after;
    FindIs(key, OPEN, |before|);
    var rest := key[|before| + 1..];
    assert rest == tag + [CLOSE] + after;
    FindIs(rest, CLOSE, |tag|);
  }

  /**
    The part the Redis Cluster specification hashes (its section on hash tags): the bytes between the first
    opening brace and the first closing brace after it, when there are such braces and bytes, else the whole key.
   */
  ghost predicate IsSpecPart(key: Octets, part: Octets) {
    if Tagged(key)
    then exists s, e :: TagAt(key, s, e) && s + 1 < e && part == key[s + 1..e]
    else part == key
  }

  /** `s` is the first opening brace and `e` the first closing one after it. */
  ghost predicate TagAt(key: Octets, s: int, e: int) {
    0 <= s < e < |key| && key[s] == OPEN && key[e] == CLOSE &&
    (forall k :: 0 <= k < s ==> key[k] != OPEN) && (forall k :: s < k < e ==> key[k] != CLOSE)
  }

  /** The key has a tag with at least one byte in it. */
  ghost predicate Tagged(key: Octets) { exists s, e :: TagAt(key, s, e) && s + 1 < e }

  /** The first opening brace is directly followed by a closing one. */
  predicate EmptyTag(key: Octets) {
    var start := Find(key, OPEN);
    start + 1 < |key| && key[start + 1] == CLOSE
  }

  lemma TagFound(key: Octets, s: int, e: int)
    requires TagAt(key, s, e)
    ensures Find(key, OPEN) == s && HashPart(key) == key[s + 1..e]
  {
    hide Find;
    FindIs(key, OPEN, s);
    FindIs(key[s + 1..], CLOSE, e - s - 1);
  }

  lemma TagMissing(key: Octets)
    requires forall s, e :: !TagAt(key, s, e)
    ensures HashPart(key) == key && !EmptyTag(key)
  {
    var start := Find(key, OPEN);
    if start < |key| {
      var rest := key[start + 1..];
      var end := Find(rest, CLOSE);
      if end < |rest| {
        assert forall k :: 0 <= k < end ==> rest[k] == key[start + 1 + k];
        assert TagAt(key, start, start + 1 + end);
      }
    }
  }

  /** Every key is hashed as the specification says, but for those whose first opening brace is directly closed. */
  lemma HashPartExact(key: Octets)
    ensures IsSpecPart(key, HashPart(key)) <==> !EmptyTag(key)
  {
    hide HashPart;
    if s, e :| TagAt(key, s, e) {
      TagFound(key, s, e);
      forall t, f | TagAt(key, t, f) ensures t == s && f == e { TagFound(key, t, f); }
      if e == s + 1 { assert HashPart(key) == [] && key != []; }
    } else {
      TagMissing(key);
    }
  }

  /** Keys with the same tag share a slot. */
  lemma SameTagSameSlot(key: Octets, other: Octets, slot: nat, slot2: nat)
    requires HashPart(key) == HashPart(other) && IsSlotOf(key, slot) && IsSlotOf(other, slot2)
    ensures slot == slot2
  {
    hide IsRemainder;
    var c: bv16 :| IsRemainder(HashPart(key), c) && slot == (c as int) % SLOT_COUNT;
    var d: bv16 :| IsRemainder(HashPart(other), d) && slot2 == (d as int) % SLOT_COUNT;
    RemainderIsUnique(HashPart(key), c, d);
  }
}
