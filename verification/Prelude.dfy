/** The failure-carrying types the other modules share. */
module Wrappers {
  datatype Option<+T> = None | Some(value: T)

  datatype Result<+T, +E> = Ok(value: T) | Err(error: E) {
    predicate IsFailure() {
      Err?
    }

    function PropagateFailure<U>(): (r: Result<U, E>)
      requires Err?
    {
      Err(error)
    }

    function Extract(): T
      requires Ok?
    {
      value
    }
  }
}

/** Letters without their case, in ASCII. */
module Texts {
  function Lower(c: char): char {
    if 'A' <= c <= 'Z' then (c as int + 32) as char else c
  }

  function Lowered(s: string): string {
    seq(|s|, i requires 0 <= i < |s| => Lower(s[i]))
  }
}

/** Bytes, and the fixed-width integers the containers store. */
module Bytes {
  type Byte = b: int | 0 <= b < 0x100

  const U16_LIMIT := 0x1_0000
  const U24_LIMIT := 0x100_0000
  const U32_LIMIT := 0x1_0000_0000

  /** The bound of every reader on an XMP packet. */
  const MAX_XMP_BYTES := 56 * 1024

  /** What follows a position, or nothing behind the end. */
  function From(bytes: seq<Byte>, position: nat): seq<Byte> {
    if position < |bytes| then bytes[position..] else []
  }

  function BigEndian16(n: nat): (r: seq<Byte>)
    requires n < U16_LIMIT
    ensures |r| == 2
  {
    [n / 0x100, n % 0x100]
  }

  function FromBigEndian16(s: seq<Byte>): (n: nat)
    requires |s| == 2
    ensures n < U16_LIMIT
  {
    var high: int, low: int := s[0], s[1];
    high * 0x100 + low
  }

  function BigEndian32(n: nat): (r: seq<Byte>)
    requires n < U32_LIMIT
    ensures |r| == 4
  {
    BigEndian16(n / U16_LIMIT) + BigEndian16(n % U16_LIMIT)
  }

  function FromBigEndian32(s: seq<Byte>): (n: nat)
    requires |s| == 4
    ensures n < U32_LIMIT
  {
    FromBigEndian16(s[..2]) * U16_LIMIT + FromBigEndian16(s[2..])
  }

  function LittleEndian24(n: nat): (r: seq<Byte>)
    requires n < U24_LIMIT
    ensures |r| == 3
  {
    [n % 0x100, n / 0x100 % 0x100, n / 0x1_0000]
  }

  function LittleEndian32(n: nat): (r: seq<Byte>)
    requires n < U32_LIMIT
    ensures |r| == 4
  {
    var big := BigEndian32(n);
    [big[3], big[2], big[1], big[0]]
  }

  function FromLittleEndian32(s: seq<Byte>): (n: nat)
    requires |s| == 4
    ensures n < U32_LIMIT
  {
    FromBigEndian32([s[3], s[2], s[1], s[0]])
  }

  /** The flag bits of a VP8X chunk. */
  datatype Flag = Animation | Xmp | Exif | Alpha | Icc

  /** `byte |= flag`. */
  function SetFlag(b: Byte, flag: Flag): Byte {
    match flag
    case Animation => if b / 0x02 % 2 == 1 then b else b + 0x02
    case Xmp => if b / 0x04 % 2 == 1 then b else b + 0x04
    case Exif => if b / 0x08 % 2 == 1 then b else b + 0x08
    case Alpha => if b / 0x10 % 2 == 1 then b else b + 0x10
    case Icc => if b / 0x20 % 2 == 1 then b else b + 0x20
  }

  predicate Bit(b: nat, bit: nat)
    requires bit > 0
  {
    b / bit % 2 == 1
  }

  predicate IsBit(bit: nat) {
    bit in {0x01, 0x02, 0x04, 0x08, 0x10, 0x20, 0x40, 0x80}
  }

  function BitOf(flag: Flag): (bit: nat)
    ensures IsBit(bit)
  {
    match flag
    case Animation => 0x02
    case Xmp => 0x04
    case Exif => 0x08
    case Alpha => 0x10
    case Icc => 0x20
  }

  /** Setting a flag sets its bit, and changes no other. */
  lemma SetFlagMeaning(b: Byte, flag: Flag, bit: nat)
    requires IsBit(bit)
    ensures Bit(SetFlag(b, flag), bit) <==> Bit(b, bit) || bit == BitOf(flag)
    ensures Bit(b, BitOf(flag)) ==> SetFlag(b, flag) == b
  {
    if !Bit(b, BitOf(flag)) {
      AddBit(b, BitOf(flag), bit);
    }
  }

  lemma HalfBit(b: nat, bit: nat)
    requires IsBit(bit) && bit > 1
    ensures bit % 2 == 0 && IsBit(bit / 2) && b / bit == b / 2 / (bit / 2)
  {
    if bit == 0x02 {
    } else if bit == 0x04 {
    } else if bit == 0x08 {
    } else if bit == 0x10 {
    } else if bit == 0x20 {
    } else if bit == 0x40 {
    } else {
    }
  }

  lemma {:induction false} AddBit(b: nat, f: nat, bit: nat)
    requires IsBit(f) && IsBit(bit) && !Bit(b, f)
    ensures Bit(b + f, bit) <==> Bit(b, bit) || bit == f
    decreases f
  {
    if f == 1 {
      AddOne(b, bit);
    } else {
      HalfBit(b, f);
      assert (b + f) / 2 == b / 2 + f / 2 && (b + f) % 2 == b % 2;
      if bit > 1 {
        HalfBit(b, bit);
        HalfBit(b + f, bit);
        AddBit(b / 2, f / 2, bit / 2);
      }
    }
  }

  lemma AddOne(b: nat, bit: nat)
    requires IsBit(bit) && b % 2 == 0
    ensures Bit(b + 1, bit) <==> Bit(b, bit) || bit == 1
  {
    assert (b + 1) / 2 == b / 2;
    if bit > 1 {
      HalfBit(b, bit);
      HalfBit(b + 1, bit);
    }
  }

  /** The number whose base-256 digits these are, the least one first. */
  function Value(digits: seq<Byte>): nat {
    if digits == [] then 0
    else
      var low: int := digits[0];
      low + 0x100 * Value(digits[1..])
  }

  lemma LittleEndian24Value(n: nat)
    requires n < U24_LIMIT
    ensures Value(LittleEndian24(n)) == n
  {
    var s := LittleEndian24(n);
    ValueOf3(s[0], s[1], s[2]);
    assert s == [s[0], s[1], s[2]];
  }

  lemma ValueOf3(a: Byte, b: Byte, c: Byte)
    ensures var x: int, y: int, z: int := a, b, c; Value([a, b, c]) == x + 0x100 * y + 0x1_0000 * z
  {
    assert [c][1..] == [] && Value([c]) == c;
    assert [a, b, c][1..] == [b, c] && [b, c][1..] == [c];
  }

  /** The least byte comes first in the one order, and last in the other. */
  lemma FromEndianValue(s: seq<Byte>)
    requires |s| == 4
    ensures FromLittleEndian32(s) == Value(s) && FromBigEndian32(s) == Value([s[3], s[2], s[1], s[0]])
    ensures FromBigEndian16(s[..2]) == Value([s[1], s[0]])
  {
    var a, b, c, d := s[0], s[1], s[2], s[3];
    assert s == [a] + [b, c, d] && s[1..] == [b, c, d] && [d, c, b, a][1..] == [c, b, a];
    ValueOf3(b, c, d);
    ValueOf3(c, b, a);
    assert [b, a][1..] == [a] && [a][1..] == [];
  }

  lemma BigEndian16RoundTrip(n: nat)
    requires n < U16_LIMIT
    ensures FromBigEndian16(BigEndian16(n)) == n
  {
  }

  lemma BigEndian32RoundTrip(n: nat)
    requires n < U32_LIMIT
    ensures FromBigEndian32(BigEndian32(n)) == n
  {
    var s := BigEndian32(n);
    assert s[..2] == BigEndian16(n / U16_LIMIT) && s[2..] == BigEndian16(n % U16_LIMIT);
  }

  lemma LittleEndian32RoundTrip(n: nat)
    requires n < U32_LIMIT
    ensures FromLittleEndian32(LittleEndian32(n)) == n
  {
    BigEndian32RoundTrip(n);
    var big, s := BigEndian32(n), LittleEndian32(n);
    assert [s[3], s[2], s[1], s[0]] == big;
  }

  lemma BigEndian32Inverse(s: seq<Byte>)
    requires |s| == 4
    ensures BigEndian32(FromBigEndian32(s)) == s
  {
  }

  lemma LittleEndian32Inverse(s: seq<Byte>)
    requires |s| == 4
    ensures LittleEndian32(FromLittleEndian32(s)) == s
  {
    BigEndian32Inverse([s[3], s[2], s[1], s[0]]);
  }
}
