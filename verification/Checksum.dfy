/** The checksum of PNG, section 5.5, as the program computes it, and as the remainder of a division of polynomials. */
module Checksums {
  import opened Bytes

  // ----- as computed

  function CrcBit(crc: bv32): bv32 {
    (crc >> 1) ^ (0xedb8_8320 & (0 - (crc & 1)))
  }

  function CrcBits(crc: bv32, n: nat): bv32
    decreases n
  {
    if n == 0 then crc else CrcBits(CrcBit(crc), n - 1)
  }

  function Word(b: Byte): bv32 {
    (b as bv8) as bv32
  }

  function Mixed(crc: bv32, b: Byte): bv32 {
    crc ^ Word(b)
  }

  function CrcByte(crc: bv32, b: Byte): bv32 {
    CrcBits(Mixed(crc, b), 8)
  }

  function CrcOf(bytes: seq<Byte>): bv32 {
    !CrcFrom(0xffff_ffff, bytes)
  }

  function CrcFrom(crc: bv32, bytes: seq<Byte>): bv32
    decreases |bytes|
  {
    if bytes == [] then crc else CrcFrom(CrcByte(crc, bytes[0]), bytes[1..])
  }

  method MixByte(start: bv32, b: Byte) returns (crc: bv32)
    ensures crc == CrcByte(start, b)
  {
    hide CrcBit;
    crc := start ^ Word(b);
    var left := 8;
    while left > 0
      invariant 0 <= left <= 8
      invariant CrcBits(crc, left) == CrcByte(start, b)
    {
      crc := CrcBit(crc);
      left := left - 1;
    }
  }

  method Crc32(bytes: seq<Byte>) returns (r: bv32)
    ensures r == CrcOf(bytes)
  {
    hide CrcByte;
    var crc: bv32 := 0xffff_ffff;
    var i := 0;
    while i < |bytes|
      invariant 0 <= i <= |bytes|
      invariant CrcFrom(crc, bytes[i..]) == CrcFrom(0xffff_ffff, bytes)
    {
      assert bytes[i..][0] == bytes[i] && bytes[i..][1..] == bytes[i + 1..];
      crc := MixByte(crc, bytes[i]);
      i := i + 1;
    }
    return !crc;
  }

  function BigEndian(word: bv32): (r: seq<Byte>)
    ensures |r| == 4
  {
    [(word >> 24) as bv8 as Byte, ((word >> 16) & 0xff) as bv8 as Byte,
     ((word >> 8) & 0xff) as bv8 as Byte, (word & 0xff) as bv8 as Byte]
  }

  /** The four bytes of the checksum. */
  function Checksum(bytes: seq<Byte>): (r: seq<Byte>)
    ensures |r| == 4
  {
    BigEndian(CrcOf(bytes))
  }

  // ----- polynomials over two elements

  /** Coefficients, the highest first. */
  type Bits = seq<bool>

  function Zeros(n: nat): (r: Bits)
    ensures |r| == n
  {
    seq(n, _ => false)
  }

  function Plus(a: Bits, b: Bits): (r: Bits)
    requires |a| == |b|
    ensures |r| == |a|
  {
    seq(|a|, i requires 0 <= i < |a| => a[i] != b[i])
  }

  /** The exponents of the generator below its 32nd. */
  const EXPONENTS := {26, 23, 22, 16, 12, 11, 10, 8, 7, 5, 4, 2, 1, 0}

  /** The generator without its highest coefficient. */
  function LowGenerator(): (r: Bits)
    ensures |r| == 32
  {
    seq(32, i requires 0 <= i < 32 => 31 - i in EXPONENTS)
  }

  /** The product with the generator, one shifted copy for each coefficient. */
  function TimesGenerator(q: Bits): (r: Bits)
    ensures |r| == |q| + 32
  {
    if q == [] then Zeros(32)
    else
      var rest := [false] + TimesGenerator(q[1..]);
      if q[0] then Plus([true] + LowGenerator() + Zeros(|q| - 1), rest) else rest
  }

  /** `dividend` is `q` times the generator, and `remainder`, which is of a lower degree. */
  predicate Divides(dividend: Bits, q: Bits, remainder: Bits) {
    && |remainder| == 32 && |dividend| == |q| + 32
    && dividend == Plus(TimesGenerator(q), Zeros(|q|) + remainder)
  }

  // ----- division, one coefficient after another

  /** Adds `low` to the first coefficients. */
  function PlusFirst(p: Bits, low: Bits): (r: Bits)
    requires |low| <= |p|
    ensures |r| == |p|
  {
    Plus(p, low + Zeros(|p| - |low|))
  }

  /** Takes the generator away from the highest coefficients, if the first of them is set. */
  function Reduce(p: Bits): (r: Bits)
    requires |p| > 32
    ensures |r| == |p| - 1
  {
    if p[0] then PlusFirst(p[1..], LowGenerator()) else p[1..]
  }

  function Remainder(p: Bits): (r: Bits)
    requires |p| >= 32
    ensures |r| == 32
    decreases |p|
  {
    if |p| == 32 then p else Remainder(Reduce(p))
  }

  function Quotient(p: Bits): (q: Bits)
    requires |p| >= 32
    ensures |q| == |p| - 32
    decreases |p|
  {
    if |p| == 32 then [] else [p[0]] + Quotient(Reduce(p))
  }

  lemma PlusZero(a: Bits)
    ensures Plus(Zeros(|a|), a) == a
  {
  }

  /** The share of the first coefficient in the coefficients after it. */
  function Share(taken: bool, n: nat): (r: Bits)
    requires n >= 32
    ensures |r| == n
  {
    if taken then LowGenerator() + Zeros(n - 32) else Zeros(n)
  }

  lemma ProductRest(q: Bits)
    requires q != []
    ensures TimesGenerator(q)[0] == q[0]
    ensures TimesGenerator(q)[1..] == Plus(Share(q[0], |q| + 31), TimesGenerator(q[1..]))
  {
    hide LowGenerator, TimesGenerator, Zeros, Plus, Share;
    var rest := TimesGenerator(q[1..]);
    TimesFirst(q);
    Shares(|q| - 1);
    PlusZero(rest);
    AfterFirst(false, rest);
    AfterFirst(true, Share(true, |q| + 31));
    if q[0] {
      PlusTail([true] + Share(true, |q| + 31), [false] + rest);
    }
  }

  lemma Shares(n: nat)
    ensures Share(false, n + 32) == Zeros(n + 32)
    ensures [true] + LowGenerator() + Zeros(n) == [true] + Share(true, n + 32)
  {
    hide LowGenerator, Zeros;
  }

  lemma AfterFirst(first: bool, rest: Bits)
    ensures ([first] + rest)[0] == first && ([first] + rest)[1..] == rest
  {
  }

  lemma TimesFirst(q: Bits)
    requires q != []
    ensures var rest := [false] + TimesGenerator(q[1..]);
      TimesGenerator(q) == if q[0] then Plus([true] + LowGenerator() + Zeros(|q| - 1), rest) else rest
  {
  }

  lemma PlusTail(a: Bits, b: Bits)
    requires |a| == |b| > 0
    ensures Plus(a, b)[0] == (a[0] != b[0]) && Plus(a, b)[1..] == Plus(a[1..], b[1..])
  {
  }

  lemma ReduceShare(p: Bits)
    requires |p| > 32
    ensures Reduce(p) == Plus(p[1..], Share(p[0], |p| - 1))
  {
    hide LowGenerator;
  }

  lemma PlusBothSides(a: Bits, share: Bits, b: Bits, tail: Bits)
    requires |a| == |share| == |b| == |tail|
    ensures a == Plus(Plus(share, b), tail) <==> Plus(a, share) == Plus(b, tail)
  {
    var left, right := Plus(Plus(share, b), tail), Plus(b, tail);
    assert forall i :: 0 <= i < |a| ==> left[i] == ((share[i] != b[i]) != tail[i]) && right[i] == (b[i] != tail[i]);
    if a == left {
      assert Plus(a, share) == right;
    }
    if Plus(a, share) == right {
      forall i | 0 <= i < |a| ensures a[i] == left[i] {
        assert Plus(a, share)[i] == (a[i] != share[i]);
      }
    }
  }

  /**
   * The first coefficient of a product is that of the factor; the others, without its share, are the product of the
   * rest.
   */
  lemma ProductStep(q: Bits, tail: Bits, p: Bits)
    requires q != [] && |p| == |tail| == |q| + 32 && !tail[0]
    ensures p == Plus(TimesGenerator(q), tail) <==>
      p[0] == q[0] && Reduce(p) == Plus(TimesGenerator(q[1..]), tail[1..])
  {
    hide TimesGenerator, Share, Reduce;
    var product, rest := TimesGenerator(q), TimesGenerator(q[1..]);
    ProductRest(q);
    ReduceShare(p);
    PlusBothSides(p[1..], Share(q[0], |q| + 31), rest, tail[1..]);
    assert Plus(product, tail)[1..] == Plus(product[1..], tail[1..]);
    assert p == [p[0]] + p[1..] && Plus(product, tail) == [q[0]] + Plus(product, tail)[1..];
  }

  /** Division has one result, and the schoolbook method finds it. */
  lemma {:induction false} DivisionIff(p: Bits, q: Bits, r: Bits)
    requires |p| >= 32
    ensures Divides(p, q, r) <==> q == Quotient(p) && r == Remainder(p)
    decreases |p|
  {
    hide LowGenerator, PlusFirst, TimesGenerator;
    if |r| == 32 && |p| == |q| + 32 {
      if q == [] {
        assert TimesGenerator([]) == Zeros(32) by {
          NoProduct();
        }
        assert Zeros(0) + r == r;
        PlusZero(r);
      } else {
        var tail := Zeros(|q|) + r;
        assert tail[1..] == Zeros(|q| - 1) + r;
        ProductStep(q, tail, p);
        DivisionIff(Reduce(p), q[1..], r);
        assert q == [q[0]] + q[1..];
        assert Quotient(p)[0] == p[0] && Quotient(p)[1..] == Quotient(Reduce(p));
      }
    }
  }

  lemma NoProduct()
    ensures TimesGenerator([]) == Zeros(32)
  {
  }

  // ----- the register as coefficients

  predicate Low(c: bv32) {
    c & 1 == 1
  }

  function Half(c: bv32): bv32 {
    c >> 1
  }

  /** The lowest bit of the register is the coefficient of the highest power. */
  function BitsOf(c: bv32, n: nat): (r: Bits)
    ensures |r| == n
    decreases n
  {
    if n == 0 then [] else [Low(c)] + BitsOf(Half(c), n - 1)
  }

  function Shifted(c: bv32, n: nat): bv32
    decreases n
  {
    if n == 0 then c else Shifted(c >> 1, n - 1)
  }

  function Ones(n: nat): (r: Bits)
    ensures |r| == n
  {
    seq(n, _ => true)
  }

  /** The bits of the data, those of each byte from the lowest. */
  function DataBits(bytes: seq<Byte>): (r: Bits)
    ensures |r| == 8 * |bytes|
  {
    if bytes == [] then [] else BitsOf(Word(bytes[0]), 8) + DataBits(bytes[1..])
  }

  /** Every bit of `x` is the difference of those of `a` and `b`. */
  predicate Xored(a: bv32, b: bv32, x: bv32) {
    x == a ^ b
  }

  lemma {:induction false} XorBits(a: bv32, b: bv32, x: bv32, n: nat)
    requires Xored(a, b, x)
    ensures BitsOf(x, n) == Plus(BitsOf(a, n), BitsOf(b, n))
    decreases n
  {
    hide Plus, BitsOf, Xored, Low, Half;
    NoBits(a);
    NoBits(b);
    NoBits(x);
    if n > 0 {
      var a1, b1, x1 := Half(a), Half(b), Half(x);
      XorParts(a, b, x);
      XorBits(a1, b1, x1, n - 1);
      BitsFirst(a, n - 1);
      BitsFirst(b, n - 1);
      BitsFirst(x, n - 1);
      PlusCons(Low(a), Low(b), BitsOf(a1, n - 1), BitsOf(b1, n - 1));
    } else {
      PlusNothing();
    }
  }

  lemma XorParts(a: bv32, b: bv32, x: bv32)
    requires Xored(a, b, x)
    ensures Xored(Half(a), Half(b), Half(x)) && Low(x) == (Low(a) != Low(b))
  {
  }

  lemma NoBits(c: bv32)
    ensures BitsOf(c, 0) == []
  {
  }

  lemma BitsFirst(c: bv32, n: nat)
    ensures BitsOf(c, n + 1) == [Low(c)] + BitsOf(Half(c), n)
  {
  }

  lemma PlusNothing()
    ensures Plus([], []) == []
  {
  }

  lemma PlusCons(x: bool, y: bool, a: Bits, b: Bits)
    requires |a| == |b|
    ensures Plus([x] + a, [y] + b) == [x != y] + Plus(a, b)
  {
  }

  lemma {:induction false} BitsSplit(c: bv32, n: nat, m: nat)
    ensures BitsOf(c, n + m) == BitsOf(c, n) + BitsOf(Shifted(c, n), m)
    decreases n
  {
    if n > 0 {
      BitsSplit(c >> 1, n - 1, m);
    }
  }

  lemma {:induction false} ZeroBits(n: nat)
    ensures BitsOf(0, n) == Zeros(n)
  {
    if n > 0 {
      assert (0 as bv32) >> 1 == 0;
      ZeroBits(n - 1);
    }
  }

  lemma {:induction false} ShiftedAdd(c: bv32, n: nat, m: nat)
    ensures Shifted(c, n + m) == Shifted(Shifted(c, n), m)
    decreases n
  {
    if n > 0 {
      ShiftedAdd(c >> 1, n - 1, m);
    }
  }

  lemma ShiftedFour(c: bv32)
    ensures Shifted(c, 4) == c >> 4
  {
    assert Shifted(c, 4) == Shifted(c >> 1, 3) == Shifted(c >> 1 >> 1, 2) == Shifted(c >> 1 >> 1 >> 1, 1)
      == Shifted(c >> 1 >> 1 >> 1 >> 1, 0);
    assert c >> 1 >> 1 >> 1 >> 1 == c >> 4;
  }

  lemma ShiftedEight(c: bv32)
    ensures Shifted(c, 8) == c >> 8
  {
    ShiftedFour(c);
    ShiftedFour(c >> 4);
    ShiftedAdd(c, 4, 4);
    assert c >> 4 >> 4 == c >> 8;
  }

  lemma ShiftedAll(c: bv32)
    ensures Shifted(c, 32) == 0
  {
    hide Shifted;
    var c1 := Shifted(c, 8);
    var c2 := Shifted(c1, 8);
    var c3 := Shifted(c2, 8);
    ShiftedAdd(c, 8, 24);
    ShiftedAdd(c1, 8, 16);
    ShiftedAdd(c2, 8, 8);
    ShiftedEight(c);
    ShiftedEight(c1);
    ShiftedEight(c2);
    ShiftedEight(c3);
    ShiftOut(c, c1, c2, c3);
  }

  lemma ShiftOut(c: bv32, c1: bv32, c2: bv32, c3: bv32)
    requires c1 == c >> 8 && c2 == c1 >> 8 && c3 == c2 >> 8
    ensures c3 >> 8 == 0
  {
  }

  /** Four bytes of bits. */
  lemma FourBytes(c: bv32, c1: bv32, c2: bv32, c3: bv32)
    requires c1 == Shifted(c, 8) && c2 == Shifted(c1, 8) && c3 == Shifted(c2, 8)
    ensures BitsOf(c, 32) == BitsOf(c, 8) + (BitsOf(c1, 8) + (BitsOf(c2, 8) + BitsOf(c3, 8)))
  {
    hide BitsOf, Shifted;
    BitsSplit(c, 8, 24);
    BitsSplit(c1, 8, 16);
    BitsSplit(c2, 8, 8);
  }

  lemma ShiftBits(c: bv32)
    ensures BitsOf(Half(c), 32) == BitsOf(c, 32)[1..] + [false]
    ensures BitsOf(c, 32)[0] == Low(c)
  {
    BitsFirst(c, 32);
    BitsFirst(c, 31);
    hide BitsOf, Shifted;
    BitsSplit(c, 32, 1);
    ShiftedAll(c);
    ZeroBits(1);
    assert Zeros(1) == [false];
    Rotate(Low(c), BitsOf(Half(c), 32), BitsOf(c, 32));
  }

  lemma Rotate(first: bool, tail: Bits, whole: Bits)
    requires [first] + tail == whole + [false] && whole != []
    ensures tail == whole[1..] + [false]
  {
    assert tail == ([first] + tail)[1..] == (whole + [false])[1..];
  }

  lemma ByteBits(b: Byte)
    ensures BitsOf(Word(b), 32) == BitsOf(Word(b), 8) + Zeros(24)
  {
    hide BitsOf, Shifted;
    var word := Word(b);
    ShiftedEight(word);
    assert word >> 8 == 0;
    BitsSplit(word, 8, 24);
    ZeroBits(24);
  }

  lemma Eight(c: bv32)
    ensures BitsOf(c, 8) == [
      c & 1 == 1, (c >> 1) & 1 == 1, (c >> 2) & 1 == 1, (c >> 3) & 1 == 1,
      (c >> 4) & 1 == 1, (c >> 5) & 1 == 1, (c >> 6) & 1 == 1, (c >> 7) & 1 == 1]
  {
    hide BitsOf, Shifted;
    Four(c);
    Four(c >> 4);
    ShiftedFour(c);
    BitsSplit(c, 4, 4);
    ShiftPastFour(c);
  }

  lemma ShiftPastFour(c: bv32)
    ensures c >> 4 >> 1 == c >> 5 && c >> 4 >> 2 == c >> 6 && c >> 4 >> 3 == c >> 7
  {
  }

  lemma Four(c: bv32)
    ensures BitsOf(c, 4) == [c & 1 == 1, (c >> 1) & 1 == 1, (c >> 2) & 1 == 1, (c >> 3) & 1 == 1]
  {
    assert c >> 1 >> 1 == c >> 2 && c >> 1 >> 1 >> 1 == c >> 3;
    assert BitsOf(c, 4) == [c & 1 == 1] + BitsOf(c >> 1, 3);
    assert BitsOf(c >> 1, 3) == [(c >> 1) & 1 == 1] + BitsOf(c >> 1 >> 1, 2);
    assert BitsOf(c >> 1 >> 1, 2) == [(c >> 1 >> 1) & 1 == 1] + BitsOf(c >> 1 >> 1 >> 1, 1);
    assert BitsOf(c >> 1 >> 1 >> 1, 1) == [(c >> 1 >> 1 >> 1) & 1 == 1] + BitsOf(c >> 1 >> 1 >> 1 >> 1, 0);
  }

  /** The constant of the program is the generator of the standard. */
  lemma GeneratorBits()
    ensures BitsOf(0xedb8_8320, 32) == LowGenerator()
  {
    hide BitsOf, Shifted;
    ShiftedEight(0xedb8_8320);
    ShiftedEight(0x00ed_b883);
    ShiftedEight(0x0000_edb8);
    FourBytes(0xedb8_8320, 0x00ed_b883, 0x0000_edb8, 0x0000_00ed);
    Eight(0xedb8_8320);
    Eight(0x00ed_b883);
    Eight(0x0000_edb8);
    Eight(0x0000_00ed);
  }

  lemma OnesBits()
    ensures BitsOf(0xffff_ffff, 32) == Ones(32)
  {
    hide BitsOf, Shifted;
    ShiftedEight(0xffff_ffff);
    ShiftedEight(0x00ff_ffff);
    ShiftedEight(0x0000_ffff);
    FourBytes(0xffff_ffff, 0x00ff_ffff, 0x0000_ffff, 0x0000_00ff);
    Eight(0xffff_ffff);
    Eight(0x00ff_ffff);
    Eight(0x0000_ffff);
    Eight(0x0000_00ff);
  }

  // ----- the register divides

  /** The predicate form of one turn: the halved register, and the generator added when a set bit was lost. */
  lemma CrcBitParts(c: bv32)
    ensures if Low(c) then Xored(Half(c), 0xedb8_8320, CrcBit(c)) else CrcBit(c) == Half(c)
  {
    if Low(c) {
      assert 0 - (c & 1) == 0xffff_ffff;
    } else {
      assert c & 1 == 0;
    }
  }

  /** One turn takes the coefficients of the register up by one power and the generator away. */
  lemma CrcBitMeaning(c: bv32)
    ensures var shifted := BitsOf(c, 32)[1..] + [false];
      BitsOf(CrcBit(c), 32) == if BitsOf(c, 32)[0] then Plus(shifted, LowGenerator()) else shifted
  {
    hide BitsOf, Plus, LowGenerator, Low, Half, Xored, CrcBit;
    CrcBitParts(c);
    ShiftBits(c);
    GeneratorBits();
    if Low(c) {
      XorBits(Half(c), 0xedb8_8320, CrcBit(c), 32);
    }
  }

  lemma PlusFirstShift(s: Bits, low: Bits)
    requires |s| >= 32 && |low| == 32
    ensures PlusFirst([false] + s, low)[0] == low[0]
    ensures PlusFirst([false] + s, low)[1..] == PlusFirst(s, low[1..] + [false])
  {
    var wide := low + Zeros(|s| - 31);
    assert wide[1..] == low[1..] + [false] + Zeros(|s| - 32);
    PlusTail([false] + s, wide);
    AfterFirst(false, s);
  }

  lemma PlusFirstTwice(s: Bits, a: Bits, b: Bits)
    requires |s| >= 32 && |a| == |b| == 32
    ensures PlusFirst(PlusFirst(s, a), b) == PlusFirst(s, Plus(a, b))
  {
  }

  /** A turn of the register is a step of the division. */
  lemma ReduceIsCrcBit(c: bv32, s: Bits)
    requires |s| >= 32
    ensures Reduce(PlusFirst([false] + s, BitsOf(c, 32))) == PlusFirst(s, BitsOf(CrcBit(c), 32))
  {
    hide BitsOf, Plus, LowGenerator, PlusFirst, CrcBit;
    var low := BitsOf(c, 32);
    PlusFirstShift(s, low);
    CrcBitMeaning(c);
    if low[0] {
      PlusFirstTwice(s, low[1..] + [false], LowGenerator());
    }
  }

  lemma {:induction false} RemainderIsCrcBits(c: bv32, s: Bits, n: nat)
    requires |s| >= 32
    ensures Remainder(PlusFirst(Zeros(n) + s, BitsOf(c, 32))) == Remainder(PlusFirst(s, BitsOf(CrcBits(c, n), 32)))
    decreases n
  {
    hide BitsOf, Plus, PlusFirst, CrcBit, Reduce;
    if n == 0 {
      assert Zeros(0) + s == s;
    } else {
      var rest := Zeros(n - 1) + s;
      assert Zeros(n) + s == [false] + rest;
      ReduceIsCrcBit(c, rest);
      RemainderIsCrcBits(CrcBit(c), s, n - 1);
    }
  }

  /** A byte enters the register where its bits stand in the data. */
  lemma ByteEnters(c: bv32, b: Byte, s: Bits)
    requires |s| >= 32
    ensures PlusFirst(BitsOf(Word(b), 8) + s, BitsOf(c, 32)) == PlusFirst(Zeros(8) + s, BitsOf(Mixed(c, b), 32))
  {
    hide BitsOf, Xored, Word, Mixed, PlusFirst, Plus;
    ByteBits(b);
    MixedBits(c, b);
    XorBits(c, Word(b), Mixed(c, b), 32);
    FirstEight(BitsOf(Word(b), 8), s, BitsOf(c, 32));
  }

  lemma MixedBits(c: bv32, b: Byte)
    ensures Xored(c, Word(b), Mixed(c, b))
  {
  }

  lemma FirstEight(byte: Bits, s: Bits, low: Bits)
    requires |byte| == 8 && |low| == 32 && |s| >= 32
    ensures PlusFirst(byte + s, low) == PlusFirst(Zeros(8) + s, Plus(low, byte + Zeros(24)))
  {
    var left, right := PlusFirst(byte + s, low), PlusFirst(Zeros(8) + s, Plus(low, byte + Zeros(24)));
    forall i | 0 <= i < |left| ensures left[i] == right[i] {
    }
  }

  /**
   * The register left by the data is the remainder of the data, moved up by 32 powers, with the register added in
   * front.
   */
  lemma {:induction false} RegisterIsRemainder(c: bv32, bytes: seq<Byte>)
    ensures BitsOf(CrcFrom(c, bytes), 32) == Remainder(PlusFirst(DataBits(bytes) + Zeros(32), BitsOf(c, 32)))
    decreases |bytes|
  {
    hide BitsOf, Plus, PlusFirst, CrcBits, Mixed, Xored, Word, Remainder;
    if bytes == [] {
      AloneInFront(BitsOf(c, 32));
      assert DataBits(bytes) + Zeros(32) == Zeros(32);
    } else {
      var rest := DataBits(bytes[1..]) + Zeros(32);
      assert DataBits(bytes) + Zeros(32) == BitsOf(Word(bytes[0]), 8) + rest;
      ByteEnters(c, bytes[0], rest);
      RemainderIsCrcBits(Mixed(c, bytes[0]), rest, 8);
      RegisterIsRemainder(CrcByte(c, bytes[0]), bytes[1..]);
    }
  }

  lemma AloneInFront(low: Bits)
    requires |low| == 32
    ensures PlusFirst(Zeros(32), low) == low && Remainder(low) == low
  {
  }

  /** The polynomial that is divided: the data, moved up by 32 powers, with its first 32 coefficients inverted. */
  function Dividend(bytes: seq<Byte>): (p: Bits)
    ensures |p| == 8 * |bytes| + 32
  {
    PlusFirst(DataBits(bytes) + Zeros(32), Ones(32))
  }

  /**
   * The checksum is the inverted remainder of that polynomial by the generator of the standard: the one polynomial of a
   * degree below 32 that differs from it by a multiple of the generator.
   */
  lemma ChecksumIsRemainder(bytes: seq<Byte>, q: Bits, r: Bits)
    ensures Divides(Dividend(bytes), q, r) <==>
      q == Quotient(Dividend(bytes)) && BitsOf(CrcOf(bytes), 32) == Plus(r, Ones(|r|))
  {
    hide BitsOf, CrcOf, Dividend, Divides, Remainder, Quotient, Plus, Ones;
    DivisionIff(Dividend(bytes), q, r);
    Inverted(bytes);
    PlusOnes(r, Remainder(Dividend(bytes)));
  }

  lemma Inverted(bytes: seq<Byte>)
    ensures BitsOf(CrcOf(bytes), 32) == Plus(Remainder(Dividend(bytes)), Ones(32))
  {
    hide BitsOf, Xored, CrcFrom, Remainder, PlusFirst, Plus, Ones;
    var crc := CrcFrom(0xffff_ffff, bytes);
    RegisterIsRemainder(0xffff_ffff, bytes);
    OnesBits();
    Flipped(crc);
    XorBits(crc, 0xffff_ffff, !crc, 32);
  }

  lemma Flipped(c: bv32)
    ensures Xored(c, 0xffff_ffff, !c)
  {
  }

  lemma PlusOnes(a: Bits, b: Bits)
    ensures Plus(a, Ones(|a|)) == Plus(b, Ones(|b|)) <==> a == b
  {
    var left, right := Plus(a, Ones(|a|)), Plus(b, Ones(|b|));
    if left == right {
      forall i | 0 <= i < |a| ensures a[i] == b[i] {
        assert left[i] == right[i];
      }
    }
  }
}
