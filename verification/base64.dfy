/**
 * Standard base64 (section 4 of RFC 4648), the payload encoding of every
 * data URI the renderer builds: `base64.b64encode(data).decode('utf-8')`.
 * A strict decoder is the encoder's inverse; the two round trips are proved.
 */
module Base64 {
  import opened Wrappers

  type byte = x: int | 0 <= x < 256
  type sextet = x: int | 0 <= x < 64

  /** Table 1 of RFC 4648: the character for each 6-bit value. */
  function IndexToChar(i: sextet): (c: char)
    ensures IsAlphabetChar(c)
  {
    if i < 26 then ('A' as int + i) as char
    else if i < 52 then ('a' as int + (i - 26)) as char
    else if i < 62 then ('0' as int + (i - 52)) as char
    else if i == 62 then '+'
    else '/'
  }

  predicate IsAlphabetChar(c: char) {
    'A' <= c <= 'Z' || 'a' <= c <= 'z' || '0' <= c <= '9' || c == '+' || c == '/'
  }

  /** Table 1 of RFC 4648 read backwards. */
  function CharToIndex(c: char): (i: sextet)
    requires IsAlphabetChar(c)
    ensures IndexToChar(i) == c
  {
    if 'A' <= c <= 'Z' then c as int - 'A' as int
    else if 'a' <= c <= 'z' then c as int - 'a' as int + 26
    else if '0' <= c <= '9' then c as int - '0' as int + 52
    else if c == '+' then 62
    else 63
  }

  /** The table is a bijection: distinct values get distinct characters. */
  lemma IndexToCharInjective(i: sextet)
    ensures CharToIndex(IndexToChar(i)) == i
  {
  }

  /** The character set of encoder output: RFC 4648 alphabet plus '=' used only as trailing padding. */
  predicate IsPaddedBase64(s: string) {
    && |s| % 4 == 0
    && (forall i :: 0 <= i < |s| ==> IsAlphabetChar(s[i]) || s[i] == '=')
    && (forall i :: 0 <= i < |s| - 2 ==> s[i] != '=')
    && (forall i, j :: 0 <= i < j < |s| && s[i] == '=' ==> s[j] == '=')
  }

  /*
   * The 24-bit group of three bytes a, b, c is cut into four 6-bit digits.
   * Each digit is written in terms of the (at most two) bytes it straddles.
   */
  function Digit0(a: byte): sextet { a / 4 }
  function Digit1(a: byte, b: byte): sextet { a % 4 * 16 + b / 16 }
  function Digit2(b: byte, c: byte): sextet { b % 16 * 4 + c / 64 }
  function Digit3(c: byte): sextet { c % 64 }

  /* And back: each byte from the (two) digits it straddles. */
  function Byte0(d0: sextet, d1: sextet): byte { d0 * 4 + d1 / 16 }
  function Byte1(d1: sextet, d2: sextet): byte { d1 % 16 * 16 + d2 / 4 }
  function Byte2(d2: sextet, d3: sextet): byte { d2 % 4 * 64 + d3 }

  /** One full quantum: three bytes become four characters. */
  function EncodeQuantum(a: byte, b: byte, c: byte): (s: string)
    ensures |s| == 4 && forall k :: 0 <= k < 4 ==> IsAlphabetChar(s[k])
  {
    [IndexToChar(Digit0(a)), IndexToChar(Digit1(a, b)), IndexToChar(Digit2(b, c)), IndexToChar(Digit3(c))]
  }

  /** The final quantum of one byte: two characters and "==". */
  function EncodeOne(a: byte): string {
    [IndexToChar(Digit0(a)), IndexToChar(Digit1(a, 0)), '=', '=']
  }

  /** The final quantum of two bytes: three characters and "=". */
  function EncodeTwo(a: byte, b: byte): string {
    [IndexToChar(Digit0(a)), IndexToChar(Digit1(a, b)), IndexToChar(Digit2(b, 0)), '=']
  }

  /** Four alphabet characters in front of encoder-shaped text keep its shape. */
  lemma PaddedAfterQuantum(head: string, tail: string)
    requires |head| == 4 && forall k :: 0 <= k < 4 ==> IsAlphabetChar(head[k])
    requires IsPaddedBase64(tail)
    ensures IsPaddedBase64(head + tail)
  {
    var s := head + tail;
    forall i | 0 <= i < |s|
      ensures IsAlphabetChar(s[i]) || s[i] == '='
      ensures i < |s| - 2 ==> s[i] != '='
    {
      if i >= 4 {
        assert s[i] == tail[i - 4];
      }
    }
    forall i, j | 0 <= i < j < |s| && s[i] == '='
      ensures s[j] == '='
    {
      assert s[i] == tail[i - 4] && s[j] == tail[j - 4];
    }
  }

  /** `base64.b64encode`: full quanta left to right, then a padded final quantum for one or two leftover bytes. */
  function Encode(data: seq<byte>): string
    decreases |data|
  {
    if |data| == 0 then []
    else if |data| == 1 then EncodeOne(data[0])
    else if |data| == 2 then EncodeTwo(data[0], data[1])
    else EncodeQuantum(data[0], data[1], data[2]) + Encode(data[3..])
  }

  /** The test vectors of section 10 of RFC 4648, the bytes of "", "f", "fo", ..., "foobar". */
  lemma TestVectors()
    ensures Encode([]) == ""
    ensures Encode([102]) == "Zg=="
    ensures Encode([102, 111]) == "Zm8="
    ensures Encode([102, 111, 111]) == "Zm9v"
    ensures Encode([102, 111, 111, 98]) == "Zm9vYg=="
    ensures Encode([102, 111, 111, 98, 97]) == "Zm9vYmE="
    ensures Encode([102, 111, 111, 98, 97, 114]) == "Zm9vYmFy"
  {
    VectorQuanta();
    var foobar: seq<byte> := [102, 111, 111, 98, 97, 114];
    assert foobar[..4][3..] == [98];
    assert foobar[..5][3..] == [98, 97];
    assert foobar[3..] == [98, 97, 114];
    assert foobar[..3][3..] == [];
  }

  /** The quanta the test vectors are made of. */
  lemma VectorQuanta()
    ensures EncodeOne(102) == "Zg==" && EncodeTwo(102, 111) == "Zm8="
    ensures EncodeQuantum(102, 111, 111) == "Zm9v"
    ensures EncodeOne(98) == "Yg==" && EncodeTwo(98, 97) == "YmE="
    ensures EncodeQuantum(98, 97, 114) == "YmFy"
  {
  }

  /** Every started group of three bytes takes four characters. */
  lemma {:induction false} EncodeLength(data: seq<byte>)
    ensures |Encode(data)| == 4 * ((|data| + 2) / 3)
    decreases |data|
  {
    if |data| >= 3 {
      EncodeLength(data[3..]);
      QuantumLength(|data| - 3);
    }
  }

  /** Encoder output uses only the RFC 4648 alphabet, with '=' only as trailing padding. */
  lemma {:induction false} EncodeIsPadded(data: seq<byte>)
    ensures IsPaddedBase64(Encode(data))
    decreases |data|
  {
    if |data| >= 3 {
      EncodeIsPadded(data[3..]);
      PaddedAfterQuantum(EncodeQuantum(data[0], data[1], data[2]), Encode(data[3..]));
    }
  }

  /** Four alphabet characters decoded as one full quantum. */
  function DecodeQuantum(w: char, x: char, y: char, z: char): seq<byte>
    requires IsAlphabetChar(w) && IsAlphabetChar(x) && IsAlphabetChar(y) && IsAlphabetChar(z)
  {
    var d0, d1, d2, d3 := CharToIndex(w), CharToIndex(x), CharToIndex(y), CharToIndex(z);
    [Byte0(d0, d1), Byte1(d1, d2), Byte2(d2, d3)]
  }

  /** Strict decoder: rejects wrong lengths, characters outside the alphabet, misplaced padding and non-zero pad bits. */
  function Decode(s: string): Option<seq<byte>>
    decreases |s|
  {
    if |s| == 0 then Some([])
    else if |s| < 4 then None
    else if |s| == 4 && s[3] == '=' then DecodeFinal(s[0], s[1], s[2])
    else if !(IsAlphabetChar(s[0]) && IsAlphabetChar(s[1]) && IsAlphabetChar(s[2]) && IsAlphabetChar(s[3])) then None
    else
      match Decode(s[4..])
      case None => None
      case Some(rest) => Some(DecodeQuantum(s[0], s[1], s[2], s[3]) + rest)
  }

  /** Three more bytes take four more characters. */
  lemma QuantumLength(n: nat)
    ensures 4 * ((n + 3 + 2) / 3) == 4 + 4 * ((n + 2) / 3)
  {
  }

  /** A padded final quantum `xyz=` or `xy==`. */
  function DecodeFinal(x: char, y: char, z: char): (r: Option<seq<byte>>)
    ensures r.Some? ==> 1 <= |r.value| <= 2
  {
    if !(IsAlphabetChar(x) && IsAlphabetChar(y)) then None
    else
      var d0, d1 := CharToIndex(x), CharToIndex(y);
      if z == '=' then
        if d1 % 16 != 0 then None else Some([Byte0(d0, d1)])
      else if !IsAlphabetChar(z) then None
      else
        var d2 := CharToIndex(z);
        if d2 % 4 != 0 then None else Some([Byte0(d0, d1), Byte1(d1, d2)])
  }

  /** Bytes to digits to bytes. */
  lemma BytesDigitsBytes(a: byte, b: byte, c: byte)
    ensures Byte0(Digit0(a), Digit1(a, b)) == a
    ensures Byte1(Digit1(a, b), Digit2(b, c)) == b
    ensures Byte2(Digit2(b, c), Digit3(c)) == c
  {
  }

  /** Digits to bytes to digits. */
  lemma DigitsBytesDigits(d0: sextet, d1: sextet, d2: sextet, d3: sextet)
    ensures Digit0(Byte0(d0, d1)) == d0
    ensures Digit1(Byte0(d0, d1), Byte1(d1, d2)) == d1
    ensures Digit2(Byte1(d1, d2), Byte2(d2, d3)) == d2
    ensures Digit3(Byte2(d2, d3)) == d3
  {
  }

  lemma OneByteRoundTrip(a: byte)
    ensures Decode(EncodeOne(a)) == Some([a])
  {
    var s := EncodeOne(a);
    assert Decode(s) == DecodeFinal(s[0], s[1], s[2]);
    IndexToCharInjective(Digit0(a));
    IndexToCharInjective(Digit1(a, 0));
    assert CharToIndex(s[1]) % 16 == 0;
    BytesDigitsBytes(a, 0, 0);
  }

  lemma TwoBytesRoundTrip(a: byte, b: byte)
    ensures Decode(EncodeTwo(a, b)) == Some([a, b])
  {
    IndexToCharInjective(Digit0(a));
    IndexToCharInjective(Digit1(a, b));
    IndexToCharInjective(Digit2(b, 0));
    BytesDigitsBytes(a, b, 0);
  }

  lemma QuantumRoundTrip(a: byte, b: byte, c: byte)
    ensures var s := EncodeQuantum(a, b, c); DecodeQuantum(s[0], s[1], s[2], s[3]) == [a, b, c]
  {
    IndexToCharInjective(Digit0(a));
    IndexToCharInjective(Digit1(a, b));
    IndexToCharInjective(Digit2(b, c));
    IndexToCharInjective(Digit3(c));
    BytesDigitsBytes(a, b, c);
  }

  /** A full quantum in front of decodable text decodes to its three bytes in front. */
  lemma DecodeStep(s: string)
    requires |s| >= 4 && IsAlphabetChar(s[0]) && IsAlphabetChar(s[1]) && IsAlphabetChar(s[2]) && IsAlphabetChar(s[3])
    requires Decode(s[4..]).Some?
    ensures Decode(s) == Some(DecodeQuantum(s[0], s[1], s[2], s[3]) + Decode(s[4..]).value)
  {
  }

  /** Encoding three bytes in front of a non-empty sequence emits their quantum in front. */
  lemma EncodeStep(a: byte, b: byte, c: byte, rest: seq<byte>)
    ensures Encode([a, b, c] + rest) == EncodeQuantum(a, b, c) + Encode(rest)
  {
    var data := [a, b, c] + rest;
    assert data[3..] == rest;
  }

  /** Decoding undoes encoding, for every byte sequence. */
  lemma {:induction false} DecodeEncode(data: seq<byte>)
    ensures Decode(Encode(data)) == Some(data)
    decreases |data|
  {
    if |data| == 0 {
    } else if |data| == 1 {
      OneByteRoundTrip(data[0]);
      assert data == [data[0]];
    } else if |data| == 2 {
      TwoBytesRoundTrip(data[0], data[1]);
      assert data == [data[0], data[1]];
    } else {
      var a, b, c, rest := data[0], data[1], data[2], data[3..];
      assert data == [a, b, c] + rest;
      DecodeEncode(rest);
      EncodeStep(a, b, c, rest);
      var s := EncodeQuantum(a, b, c) + Encode(rest);
      assert s[4..] == Encode(rest);
      DecodeStep(s);
      QuantumRoundTrip(a, b, c);
    }
  }

  /** Encoding undoes strict decoding: every string the decoder accepts is the encoding of what it returns. */
  lemma {:induction false} EncodeDecode(s: string)
    requires Decode(s).Some?
    ensures Encode(Decode(s).value) == s
    decreases |s|
  {
    if |s| == 0 {
    } else if |s| == 4 && s[3] == '=' {
      FinalRoundTrip(s[0], s[1], s[2]);
      SplitQuantum(s);
    } else {
      DecodeFront(s);
      EncodeDecode(s[4..]);
      ReencodeQuantum(s[0], s[1], s[2], s[3], Decode(s[4..]).value);
      SplitQuantum(s);
    }
  }

  /** Re-encoding a decoded leading quantum in front of the encoding of the rest rebuilds the text. */
  lemma ReencodeQuantum(w: char, x: char, y: char, z: char, rest: seq<byte>)
    requires IsAlphabetChar(w) && IsAlphabetChar(x) && IsAlphabetChar(y) && IsAlphabetChar(z)
    ensures Encode(DecodeQuantum(w, x, y, z) + rest) == [w, x, y, z] + Encode(rest)
  {
    var d0, d1, d2, d3 := CharToIndex(w), CharToIndex(x), CharToIndex(y), CharToIndex(z);
    var a, b, c := Byte0(d0, d1), Byte1(d1, d2), Byte2(d2, d3);
    assert DecodeQuantum(w, x, y, z) == [a, b, c];
    EncodeStep(a, b, c, rest);
    QuantumOfDigits(d0, d1, d2, d3);
  }

  /** A text of four or more characters is its first four followed by the rest. */
  lemma SplitQuantum(s: string)
    requires |s| >= 4
    ensures s == [s[0], s[1], s[2], s[3]] + s[4..]
  {
  }

  /** A decodable text that does not end at a padded quantum starts with a full one. */
  lemma DecodeFront(s: string)
    requires |s| >= 4 && !(|s| == 4 && s[3] == '=') && Decode(s).Some?
    ensures IsAlphabetChar(s[0]) && IsAlphabetChar(s[1]) && IsAlphabetChar(s[2]) && IsAlphabetChar(s[3])
    ensures Decode(s[4..]).Some?
    ensures Decode(s).value == DecodeQuantum(s[0], s[1], s[2], s[3]) + Decode(s[4..]).value
  {
  }

  /** Encoding the bytes of four digits gives back those digits' characters. */
  lemma QuantumOfDigits(d0: sextet, d1: sextet, d2: sextet, d3: sextet)
    ensures EncodeQuantum(Byte0(d0, d1), Byte1(d1, d2), Byte2(d2, d3)) == [IndexToChar(d0), IndexToChar(d1), IndexToChar(d2), IndexToChar(d3)]
  {
    DigitsBytesDigits(d0, d1, d2, d3);
  }

  lemma FinalRoundTrip(x: char, y: char, z: char)
    requires DecodeFinal(x, y, z).Some?
    ensures Encode(DecodeFinal(x, y, z).value) == [x, y, z, '=']
  {
    var d0, d1 := CharToIndex(x), CharToIndex(y);
    if z == '=' {
      DigitsBytesDigits(d0, d1, 0, 0);
    } else {
      var d2 := CharToIndex(z);
      DigitsBytesDigits(d0, d1, d2, 0);
    }
  }
}
