/** The standard base64 alphabet with canonical padding (RFC 4648, section 4). */
module Base64 {
  import opened Wrappers
  import opened Bytes

  const PAD: Byte := 0x3D

  function Letter(v: int): Byte
    requires 0 <= v < 64
  {
    if v < 26 then 0x41 + v
    else if v < 52 then 0x61 + (v - 26)
    else if v < 62 then 0x30 + (v - 52)
    else if v == 62 then 0x2B
    else 0x2F
  }

  /** The value of a letter, or 64 for any other byte. */
  function Value(b: Byte): (v: int)
    ensures 0 <= v <= 64
  {
    if 0x41 <= b <= 0x5A then b - 0x41
    else if 0x61 <= b <= 0x7A then b - 0x61 + 26
    else if 0x30 <= b <= 0x39 then b - 0x30 + 52
    else if b == 0x2B then 62
    else if b == 0x2F then 63
    else 64
  }

  function Encode(bytes: seq<Byte>): seq<Byte> {
    if bytes == [] then []
    else
      var first := [Letter(bytes[0] / 4)];
      if |bytes| == 1 then first + [Letter(bytes[0] % 4 * 16), PAD, PAD]
      else
        var second := first + [Letter(bytes[0] % 4 * 16 + bytes[1] / 16)];
        if |bytes| == 2 then second + [Letter(bytes[1] % 16 * 4), PAD]
        else
          second + [Letter(bytes[1] % 16 * 4 + bytes[2] / 64), Letter(bytes[2] % 64)] + Encode(bytes[3..])
  }

  /** Rejects missing padding, padding before the end and non-zero trailing bits. */
  function Decode(text: seq<Byte>): Option<seq<Byte>>
    decreases |text|
  {
    if text == [] then Some([])
    else if |text| < 4 then None
    else
      var a, b, c, d := Value(text[0]), Value(text[1]), Value(text[2]), Value(text[3]);
      if a == 64 || b == 64 then None
      else if |text| == 4 && text[3] == PAD then
        if text[2] == PAD then (if b % 16 == 0 then Some([a * 4 + b / 16]) else None)
        else if c < 64 && c % 4 == 0 then Some([a * 4 + b / 16, b % 16 * 16 + c / 4])
        else None
      else if c == 64 || d == 64 then None
      else match Decode(text[4..])
        case None => None
        case Some(tail) => Some([a * 4 + b / 16, b % 16 * 16 + c / 4, c % 4 * 64 + d] + tail)
  }

  lemma LetterRoundTrip()
    ensures forall v :: 0 <= v < 64 ==> Value(Letter(v)) == v && Letter(v) != PAD
    ensures forall b: Byte :: Value(b) < 64 ==> Letter(Value(b)) == b
  {
  }

  lemma Split(x: Byte, y: Byte, z: Byte)
    ensures var a, b, c, d := x / 4, x % 4 * 16 + y / 16, y % 16 * 4 + z / 64, z % 64;
      a * 4 + b / 16 == x && b % 16 * 16 + c / 4 == y && c % 4 * 64 + d == z
  {
    var x1, y1, z1 := x / 4, y / 16, z / 64;
    var x0, y0 := x - 4 * x1, y - 16 * y1;
    assert x % 4 == x0 && y % 16 == y0;
  }

  lemma Join(a: int, b: int, c: int, d: int)
    requires 0 <= a < 64 && 0 <= b < 64 && 0 <= c < 64 && 0 <= d < 64
    ensures var x, y, z := a * 4 + b / 16, b % 16 * 16 + c / 4, c % 4 * 64 + d;
      x / 4 == a && x % 4 * 16 + y / 16 == b && y % 16 * 4 + z / 64 == c && z % 64 == d
  {
    var b1, c1 := b / 16, c / 4;
    var b0, c0 := b - 16 * b1, c - 4 * c1;
    assert b % 16 == b0 && c % 4 == c0;
  }

  lemma DecodeOne(x: Byte)
    ensures Decode(Encode([x])) == Some([x])
  {
    hide Letter, Value;
    LetterRoundTrip();
    Split(x, 0, 0);
    var a, b := x / 4, x % 4 * 16;
    assert Encode([x]) == [Letter(a), Letter(b), PAD, PAD];
  }

  lemma DecodeTwo(x: Byte, y: Byte)
    ensures Decode(Encode([x, y])) == Some([x, y])
  {
    hide Letter, Value;
    LetterRoundTrip();
    Split(x, y, 0);
    var a, b, c := x / 4, x % 4 * 16 + y / 16, y % 16 * 4;
    assert Encode([x, y]) == [Letter(a), Letter(b), Letter(c), PAD];
    assert c % 4 == 0;
  }

  lemma DecodeQuad(a: int, b: int, c: int, d: int, rest: seq<Byte>)
    requires 0 <= a < 64 && 0 <= b < 64 && 0 <= c < 64 && 0 <= d < 64
    ensures Decode([Letter(a), Letter(b), Letter(c), Letter(d)] + rest) ==
      match Decode(rest)
      case None => None
      case Some(tail) => Some([a * 4 + b / 16, b % 16 * 16 + c / 4, c % 4 * 64 + d] + tail)
  {
    hide Letter, Value;
    LetterRoundTrip();
    assert ([Letter(a), Letter(b), Letter(c), Letter(d)] + rest)[4..] == rest;
  }

  lemma {:induction false} DecodeEncode(bytes: seq<Byte>)
    ensures Decode(Encode(bytes)) == Some(bytes)
    decreases |bytes|
  {
    hide Letter, Value, Decode;
    if bytes == [] {
      assert Decode([]) == Some([]) by {
        DecodeNothing();
      }
    } else if |bytes| == 1 {
      DecodeOne(bytes[0]);
      assert bytes == [bytes[0]];
    } else if |bytes| == 2 {
      DecodeTwo(bytes[0], bytes[1]);
      assert bytes == [bytes[0], bytes[1]];
    } else {
      var x, y, z := bytes[0], bytes[1], bytes[2];
      Split(x, y, z);
      DecodeQuad(x / 4, x % 4 * 16 + y / 16, y % 16 * 4 + z / 64, z % 64, Encode(bytes[3..]));
      DecodeEncode(bytes[3..]);
      EncodeQuad(x, y, z, bytes[3..]);
      assert bytes == [x, y, z] + bytes[3..];
    }
  }

  lemma DecodeNothing()
    ensures Decode([]) == Some([])
  {
  }

  lemma EncodeQuad(x: Byte, y: Byte, z: Byte, rest: seq<Byte>)
    ensures Encode([x, y, z] + rest) ==
      [Letter(x / 4), Letter(x % 4 * 16 + y / 16), Letter(y % 16 * 4 + z / 64), Letter(z % 64)] + Encode(rest)
  {
    hide Letter, Value;
    assert ([x, y, z] + rest)[3..] == rest;
  }

  lemma EncodeLast(text: seq<Byte>)
    requires |text| == 4 && text[3] == PAD && Decode(text).Some?
    ensures Encode(Decode(text).value) == text
  {
    if text[2] == PAD {
      EncodeOne(text);
    } else {
      EncodeTwo(text);
    }
  }

  lemma EncodeOne(text: seq<Byte>)
    requires |text| == 4 && text[3] == PAD && text[2] == PAD && Decode(text).Some?
    ensures Encode(Decode(text).value) == text
  {
    hide Letter, Value;
    LetterRoundTrip();
    var a, b := Value(text[0]), Value(text[1]);
    FirstFour(text);
    Join(a, b, 0, 0);
    assert Decode(text).value == [a * 4 + b / 16];
  }

  lemma EncodeTwo(text: seq<Byte>)
    requires |text| == 4 && text[3] == PAD && text[2] != PAD && Decode(text).Some?
    ensures Encode(Decode(text).value) == text
  {
    hide Letter, Value, Encode, Decode;
    ReadTwo(text);
    var a, b, c := Value(text[0]), Value(text[1]), Value(text[2]);
    Join(a, b, c, 0);
    WriteTwo(a * 4 + b / 16, b % 16 * 16 + c / 4);
  }

  lemma ReadTwo(text: seq<Byte>)
    requires |text| == 4 && text[3] == PAD && text[2] != PAD && Decode(text).Some?
    ensures var a, b, c := Value(text[0]), Value(text[1]), Value(text[2]);
      && a < 64 && b < 64 && c < 64 && c % 4 == 0
      && text == [Letter(a), Letter(b), Letter(c), PAD]
      && Decode(text).value == [a * 4 + b / 16, b % 16 * 16 + c / 4]
  {
    hide Letter, Value;
    LetterRoundTrip();
  }

  lemma WriteTwo(x: Byte, y: Byte)
    ensures Encode([x, y]) == [Letter(x / 4), Letter(x % 4 * 16 + y / 16), Letter(y % 16 * 4), PAD]
  {
    hide Letter;
  }

  lemma FirstFour(text: seq<Byte>)
    requires |text| >= 4
    ensures text == [text[0], text[1], text[2], text[3]] + text[4..]
  {
  }

  lemma ReadQuad(text: seq<Byte>)
    requires text != [] && !(|text| == 4 && text[3] == PAD) && Decode(text).Some?
    ensures |text| >= 4 && Decode(text[4..]).Some?
    ensures var a, b, c, d := Value(text[0]), Value(text[1]), Value(text[2]), Value(text[3]);
      && a < 64 && b < 64 && c < 64 && d < 64
      && text == [Letter(a), Letter(b), Letter(c), Letter(d)] + text[4..]
      && Decode(text).value == [a * 4 + b / 16, b % 16 * 16 + c / 4, c % 4 * 64 + d] + Decode(text[4..]).value
  {
    hide Letter, Value;
    LetterRoundTrip();
    FirstFour(text);
  }

  lemma {:induction false} EncodeDecode(text: seq<Byte>)
    requires Decode(text).Some?
    ensures Encode(Decode(text).value) == text
    decreases |text|
  {
    hide Letter, Value, Encode, Decode;
    EncodeNothing();
    if |text| == 4 && text[3] == PAD {
      EncodeLast(text);
    } else if text != [] {
      ReadQuad(text);
      var a, b, c, d := Value(text[0]), Value(text[1]), Value(text[2]), Value(text[3]);
      Join(a, b, c, d);
      EncodeQuad(a * 4 + b / 16, b % 16 * 16 + c / 4, c % 4 * 64 + d, Decode(text[4..]).value);
      EncodeDecode(text[4..]);
    }
  }

  lemma EncodeNothing()
    ensures Decode([]) == Some([]) && Encode([]) == []
  {
  }

  /** A text decodes to `bytes` exactly when it is the encoding of `bytes`. */
  lemma DecodeIff(text: seq<Byte>, bytes: seq<Byte>)
    ensures Decode(text) == Some(bytes) <==> text == Encode(bytes)
  {
    DecodeEncode(bytes);
    if Decode(text) == Some(bytes) {
      EncodeDecode(text);
    }
  }

  /** The encoded length, and that no letter opens an XML tag. */
  lemma {:induction false} EncodeShape(bytes: seq<Byte>)
    ensures |Encode(bytes)| == (|bytes| + 2) / 3 * 4
    ensures 0x3C !in Encode(bytes)
    decreases |bytes|
  {
    if |bytes| >= 3 {
      EncodeShape(bytes[3..]);
    }
  }
}
