/** The resumable base64 coders of src/b64_encode.c and src/b64_decode.c: section 4 of RFC 4648, with a
    newline after every 72 characters and one at the end. */
module Base64 {

  const GroupsPerLine: nat := 18

  // ----- single characters; the two tables are written by their runs

  /** base64_encode_value. */
  function EncodeValue(v: bv8): char {
    if v > 63 then '=' else Letter(v as int)
  }

  function Letter(i: int): char
    requires 0 <= i < 64
  {
    if i < 26 then (65 + i) as char
    else if i < 52 then (97 + i - 26) as char
    else if i < 62 then (48 + i - 52) as char
    else if i == 62 then '+'
    else '/'
  }

  const TableSize: int := 80

  /** base64_decode_value; beyond is the byte that happens to lie behind the table, which the bound check
      lets '{' read. */
  function DecodeValue(c: char, beyond: int): int {
    var i := c as int - 43;
    if i < 0 || i > TableSize then -1
    else if i == TableSize then beyond
    else if i == 0 then 62
    else if i == 4 then 63
    else if 5 <= i < 15 then i + 47
    else if i == 18 then -2
    else if 22 <= i < 48 then i - 22
    else if 54 <= i then i - 28
    else -1
  }

  /** Decoding inverts encoding on every 6-bit value, and only letters of the alphabet have a value: all
      others are skipped, except '{', whose value is whatever lies behind the table. */
  lemma ValueRoundTrip(v: bv8, c: char, beyond: int)
    ensures v <= 63 ==> DecodeValue(EncodeValue(v), beyond) == v as int
    ensures c != '{' ==> (0 <= DecodeValue(c, beyond) <==> exists i :: 0 <= i < 64 && Letter(i) == c)
    ensures c == '{' ==> DecodeValue(c, beyond) == beyond && forall i :: 0 <= i < 64 ==> Letter(i) != c
  {
    var d := DecodeValue(c, beyond);
    if c != '{' && 0 <= d { assert d < 64 && Letter(d) == c; }
  }

  // the alphabet of RFC 4648, section 4
  const UpperCase: string := "ABCDEFGHIJKLM" + "NOPQRSTUVWXYZ"
  const LowerCase: string := "abcdefghijklm" + "nopqrstuvwxyz"
  const Alphabet: string := UpperCase + LowerCase + "0123456789" + "+/"

  lemma UpperHalves(i: int)
    requires 0 <= i < 13
    ensures "ABCDEFGHIJKLM"[i] == (65 + i) as char && "NOPQRSTUVWXYZ"[i] == (78 + i) as char
  {
  }

  lemma LowerHalves(i: int)
    requires 0 <= i < 13
    ensures "abcdefghijklm"[i] == (97 + i) as char && "nopqrstuvwxyz"[i] == (110 + i) as char
  {
  }

  lemma Numerals(i: int)
    requires 0 <= i < 10
    ensures "0123456789"[i] == (48 + i) as char
  {
  }

  /** The runs of the encoding table spell the alphabet. */
  lemma AlphabetIs(i: int)
    requires 0 <= i < 64
    ensures |Alphabet| == 64 && Letter(i) == Alphabet[i]
  {
    UpperHalves(i % 13);
    LowerHalves(i % 13);
    Numerals(if 52 <= i < 62 then i - 52 else 0);
    var halves := ["ABCDEFGHIJKLM", "NOPQRSTUVWXYZ", "abcdefghijklm", "nopqrstuvwxyz"];
    assert i < 52 ==> Alphabet[i] == halves[i / 13][i % 13];
  }

  // ----- the encoding of RFC 4648

  /** The four digits of the 24-bit number that three bytes make up. */
  function Digits(a: bv8, b: bv8, c: bv8): (r: string)
    ensures |r| == 4
  {
    var n := Number(a, b, c);
    [Letter(Digit(n, 262144)), Letter(Digit(n, 4096)), Letter(Digit(n, 64)), Letter(Digit(n, 1))]
  }

  function Int(b: bv8): (r: int)
    ensures 0 <= r < 256
  {
    b as int
  }

  function Number(a: bv8, b: bv8, c: bv8): int { Int(a) * 65536 + Int(b) * 256 + Int(c) }

  /** The digit in base 64 with the given weight. */
  function Digit(n: int, weight: int): (r: int)
    requires weight > 0
    ensures 0 <= r < 64
  {
    n / weight % 64
  }

  /** What is left over at the end is padded. */
  function Tail(s: seq<bv8>): (r: string)
    requires |s| < 3
    ensures |r| == if |s| == 0 then 0 else 4
  {
    if |s| == 0 then ""
    else if |s| == 1 then Digits(s[0], 0, 0)[..2] + "=="
    else Digits(s[0], s[1], 0)[..3] + "="
  }

  /** The whole encoding, with the given number of groups already on the current line. */
  function Encoding(s: seq<bv8>, line: nat): string {
    if |s| < 3 then Tail(s) + "\n"
    else
      Digits(s[0], s[1], s[2])
      + (if line + 1 == GroupsPerLine then "\n" + Encoding(s[3..], 0) else Encoding(s[3..], line + 1))
  }

  lemma EncodingStep(s: seq<bv8>, line: nat)
    requires |s| >= 3
    ensures |Encoding(s, line)| ==
      if line + 1 == GroupsPerLine then 5 + |Encoding(s[3..], 0)| else 4 + |Encoding(s[3..], line + 1)|
  {
    hide Tail, Digits;
  }

  lemma LengthStep(n: int, line: int)
    requires 3 <= n && 0 <= line < GroupsPerLine
    ensures (n + 2) / 3 == (n - 3 + 2) / 3 + 1
    ensures (n + 3 * line) / 54 == if line + 1 == GroupsPerLine then (n - 3) / 54 + 1 else (n - 3 + 3 * (line + 1)) / 54
  {
  }

  /** Four characters for every three bytes, a newline for every 54, and one at the end. */
  lemma {:induction false} EncodingLength(s: seq<bv8>, line: nat)
    requires line < GroupsPerLine
    ensures |Encoding(s, line)| == 4 * ((|s| + 2) / 3) + (|s| + 3 * line) / 54 + 1
  {
    if |s| >= 3 {
      hide Tail, Digits, Encoding;
      EncodingLength(s[3..], if line + 1 == GroupsPerLine then 0 else line + 1);
      EncodingStep(s, line);
      LengthStep(|s|, line);
    } else {
      hide Tail, Digits;
      assert Encoding(s, line) == Tail(s) + "\n";
    }
  }

  // ----- the encoder

  datatype EncodeStep = A | B | C

  datatype EncodeState = EncodeState(step: EncodeStep, result: bv8, count: nat)

  datatype Encoded = Encoded(state: EncodeState, text: string)

  const EncodeInit := EncodeState(A, 0, 0)

  // the values the encoder puts out, and what it keeps of a byte for the next
  function Value1(a: bv8): bv8 { (a & 0xfc) >> 2 }
  function Keep1(a: bv8): bv8 { (a & 0x03) << 4 }
  function Value2(kept: bv8, b: bv8): bv8 { kept | ((b & 0xf0) >> 4) }
  function Keep2(b: bv8): bv8 { (b & 0x0f) << 2 }
  function Value3(kept: bv8, c: bv8): bv8 { kept | ((c & 0xc0) >> 6) }
  function Value4(c: bv8): bv8 { c & 0x3f }

  /** One byte through base64_encode_block. */
  function EncodeByte(st: EncodeState, b: bv8): Encoded {
    match st.step
    case A => Encoded(EncodeState(B, Keep1(b), st.count), [EncodeValue(Value1(b))])
    case B => Encoded(EncodeState(C, Keep2(b), st.count), [EncodeValue(Value2(st.result, b))])
    case C =>
      var full := st.count + 1 == GroupsPerLine;
      Encoded(EncodeState(A, Value4(b), if full then 0 else st.count + 1),
              [EncodeValue(Value3(st.result, b)), EncodeValue(Value4(b))] + if full then "\n" else "")
  }

  function EncodeBytes(st: EncodeState, s: seq<bv8>): Encoded {
    if s == [] then Encoded(st, "")
    else
      var front := EncodeBytes(st, s[..|s| - 1]);
      var last := EncodeByte(front.state, s[|s| - 1]);
      Encoded(last.state, front.text + last.text)
  }

  /** base64_encode_finish, without the terminating zero. */
  function Finish(st: EncodeState): string {
    (match st.step
     case A => ""
     case B => [EncodeValue(st.result)] + "=="
     case C => [EncodeValue(st.result)] + "=")
    + "\n"
  }

  lemma EncodeSnoc(st: EncodeState, s: seq<bv8>, b: bv8)
    ensures var e := EncodeBytes(st, s); var last := EncodeByte(e.state, b);
      EncodeBytes(st, s + [b]) == Encoded(last.state, e.text + last.text)
  {
    hide EncodeByte;
    assert (s + [b])[..|s|] == s;
  }

  /** Input in pieces gives the same output as all of it at once. */
  lemma {:induction false} EncodeAppend(st: EncodeState, s: seq<bv8>, t: seq<bv8>)
    ensures var e := EncodeBytes(st, s); var f := EncodeBytes(e.state, t);
      EncodeBytes(st, s + t) == Encoded(f.state, e.text + f.text)
  {
    var e := EncodeBytes(st, s);
    if t == [] {
      assert s + t == s;
    } else {
      hide EncodeByte, EncodeBytes;
      var t', b := t[..|t| - 1], t[|t| - 1];
      EncodeAppend(st, s, t');
      EncodeSnoc(st, s + t', b);
      EncodeSnoc(e.state, t', b);
      var f, last := EncodeBytes(e.state, t'), EncodeByte(EncodeBytes(e.state, t').state, b);
      Associative(s, t', [b]);
      Associative(e.text, f.text, last.text);
      assert t == t' + [b];
    }
  }

  lemma Associative<T>(x: seq<T>, y: seq<T>, z: seq<T>)
    ensures (x + y) + z == x + (y + z)
  {
  }

  // the same, as numbers
  function Number1(a: int): int { a / 4 }
  function Number2(a: int, b: int): int { a % 4 * 16 + b / 16 }
  function Number3(b: int, c: int): int { b % 16 * 4 + c / 64 }
  function Number4(c: int): int { c % 64 }

  lemma OneByte(a: bv8)
    ensures Int(Value1(a)) == Number1(Int(a)) && Int(Value4(a)) == Number4(Int(a))
  {
  }

  lemma Kept1(a: bv8)
    ensures Int(Keep1(a)) == Int(a) % 4 * 16
  {
    var x := a & 0x03;
    assert Int(x) == Int(a) % 4;
    assert x <= 3 && Int(x << 4) == Int(x) * 16;
  }

  lemma Kept2(a: bv8)
    ensures Int(Keep2(a)) == Int(a) % 16 * 4
  {
    LowHalf(a);
    Times4(a & 0x0f);
  }

  lemma LowHalf(a: bv8)
    ensures (a & 0x0f) <= 15 && Int(a & 0x0f) == Int(a) % 16
  {
  }

  lemma Times4(x: bv8)
    requires x <= 15
    ensures Int(x << 2) == Int(x) * 4
  {
  }

  lemma HighParts(a: bv8)
    ensures Int((a & 0xf0) >> 4) == Int(a) / 16 && Int((a & 0xc0) >> 6) == Int(a) / 64
  {
  }

  lemma OrIsSum(x: bv8, y: bv8)
    requires x & y == 0
    ensures Int(x | y) == Int(x) + Int(y)
  {
  }

  lemma Joins(a: bv8, b: bv8)
    ensures Int(Value2(Keep1(a), b)) == Number2(Int(a), Int(b))
    ensures Int(Value3(Keep2(a), b)) == Number3(Int(a), Int(b))
  {
    hide Int;
    Kept1(a);
    Kept2(a);
    HighParts(b);
    OrIsSum(Keep1(a), (b & 0xf0) >> 4);
    OrIsSum(Keep2(a), (b & 0xc0) >> 6);
  }

  lemma SixBits(a: bv8, b: bv8)
    ensures Value1(a) <= 63 && Value2(Keep1(a), b) <= 63 && Value3(Keep2(a), b) <= 63 && Value4(a) <= 63
    // nothing in the place of the next byte: what finish writes for bytes left over
    ensures Value2(Keep1(a), 0) == Keep1(a) && Value3(Keep2(a), 0) == Keep2(a)
  {
  }

  lemma DigitIs(v: bv8, i: int)
    requires Int(v) == i && 0 <= i < 64
    ensures Letter(i) == EncodeValue(v)
  {
    assert v <= 63;
  }

  lemma ValuesAre(a: bv8, b: bv8, c: bv8)
    ensures var n := Number(a, b, c);
      && Int(Value1(a)) == Digit(n, 262144) && Int(Value2(Keep1(a), b)) == Digit(n, 4096)
      && Int(Value3(Keep2(b), c)) == Digit(n, 64) && Int(Value4(c)) == Digit(n, 1)
  {
    hide Value1, Value2, Value3, Value4, Keep1, Keep2, Digit, Int, Number1, Number2, Number3, Number4;
    OneByte(a);
    OneByte(c);
    Joins(a, b);
    Joins(b, c);
    NumberParts(Int(a), Int(b), Int(c));
  }

  /** The characters the encoder puts out for three bytes are the digits of their number. */
  lemma BitsAreDigits(a: bv8, b: bv8, c: bv8)
    ensures Digits(a, b, c) == [EncodeValue(Value1(a)), EncodeValue(Value2(Keep1(a), b)),
                                EncodeValue(Value3(Keep2(b), c)), EncodeValue(Value4(c))]
  {
    var n := Number(a, b, c);
    hide Letter, EncodeValue, Value1, Value2, Value3, Value4, Keep1, Keep2, Digit, Number, Int;
    ValuesAre(a, b, c);
    DigitIs(Value1(a), Digit(n, 262144));
    DigitIs(Value2(Keep1(a), b), Digit(n, 4096));
    DigitIs(Value3(Keep2(b), c), Digit(n, 64));
    DigitIs(Value4(c), Digit(n, 1));
  }

  lemma NumberParts(a: int, b: int, c: int)
    requires 0 <= a < 256 && 0 <= b < 256 && 0 <= c < 256
    ensures var n := a * 65536 + b * 256 + c;
      && Digit(n, 262144) == Number1(a) && Digit(n, 4096) == Number2(a, b)
      && Digit(n, 64) == Number3(b, c) && Digit(n, 1) == Number4(c)
  {
    Radix64(a / 4, a % 4 * 16 + b / 16, b % 16 * 4 + c / 64, c % 64);
  }

  lemma Radix64(d3: int, d2: int, d1: int, d0: int)
    requires 0 <= d3 < 64 && 0 <= d2 < 64 && 0 <= d1 < 64 && 0 <= d0 < 64
    ensures var n := d3 * 262144 + d2 * 4096 + d1 * 64 + d0;
      Digit(n, 262144) == d3 && Digit(n, 4096) == d2 && Digit(n, 64) == d1 && Digit(n, 1) == d0
  {
    var n := d3 * 262144 + d2 * 4096 + d1 * 64 + d0;
    assert n / 64 == d3 * 4096 + d2 * 64 + d1;
    assert n / 4096 == d3 * 64 + d2;
  }

  lemma EncodeOne(st: EncodeState, s: seq<bv8>)
    requires st.step == A && |s| == 1
    ensures EncodeBytes(st, s) == EncodeByte(st, s[0])
  {
    hide EncodeByte;
    EncodeSnoc(st, [], s[0]);
    assert [] + [s[0]] == s;
    var e := EncodeByte(st, s[0]);
    assert "" + e.text == e.text;
  }

  lemma EncodeTwo(st: EncodeState, s: seq<bv8>)
    requires st.step == A && |s| == 2
    ensures EncodeBytes(st, s) == Encoded(EncodeState(C, Keep2(s[1]), st.count),
      [EncodeValue(Value1(s[0])), EncodeValue(Value2(Keep1(s[0]), s[1]))])
  {
    hide EncodeValue, Value1, Value2, Value3, Value4, Keep1, Keep2;
    EncodeOne(st, s[..1]);
    EncodeSnoc(st, s[..1], s[1]);
    assert s[..1] + [s[1]] == s;
  }

  /** Three bytes from the start of a group on. */
  lemma EncodeGroup(st: EncodeState, s: seq<bv8>)
    requires st.step == A && |s| == 3
    ensures var e := EncodeBytes(st, s); var full := st.count + 1 == GroupsPerLine;
      && e.state.step == A && e.state.count == (if full then 0 else st.count + 1)
      && e.text == Digits(s[0], s[1], s[2]) + (if full then "\n" else "")
  {
    BitsAreDigits(s[0], s[1], s[2]);
    hide EncodeValue, Digits, EncodeBytes, Value1, Value2, Value3, Value4, Keep1, Keep2;
    EncodeTwo(st, s[..2]);
    EncodeSnoc(st, s[..2], s[2]);
    assert s[..2] + [s[2]] == s;
  }

  /** The last one or two bytes, padded. */
  lemma EncodeTail(st: EncodeState, s: seq<bv8>)
    requires st.step == A && |s| < 3
    ensures var e := EncodeBytes(st, s); e.text + Finish(e.state) == Tail(s) + "\n"
  {
    if |s| == 1 {
      TailOfOne(st, s);
    } else if |s| == 2 {
      TailOfTwo(st, s);
    }
  }

  lemma TailOfOne(st: EncodeState, s: seq<bv8>)
    requires st.step == A && |s| == 1
    ensures var e := EncodeBytes(st, s); e.text + Finish(e.state) == Tail(s) + "\n"
  {
    hide EncodeValue, Digits, EncodeBytes, Value1, Value2, Value3, Value4, Keep1, Keep2;
    SixBits(s[0], 0);
    BitsAreDigits(s[0], 0, 0);
    EncodeOne(st, s);
  }

  lemma TailOfTwo(st: EncodeState, s: seq<bv8>)
    requires st.step == A && |s| == 2
    ensures var e := EncodeBytes(st, s); e.text + Finish(e.state) == Tail(s) + "\n"
  {
    hide EncodeValue, Digits, EncodeBytes, Value1, Value2, Value3, Value4, Keep1, Keep2;
    SixBits(s[1], 0);
    BitsAreDigits(s[0], s[1], 0);
    EncodeTwo(st, s);
  }

  /** Encoding all at once and finishing gives the encoding of RFC 4648 with its newlines. */
  lemma {:induction false} EncoderIsEncoding(st: EncodeState, s: seq<bv8>)
    requires st.step == A
    ensures var e := EncodeBytes(st, s); e.text + Finish(e.state) == Encoding(s, st.count)
    decreases |s|
  {
    hide EncodeBytes, Finish, Digits, Tail;
    if |s| < 3 {
      EncodeTail(st, s);
    } else {
      EncodeGroup(st, s[..3]);
      var e := EncodeBytes(st, s[..3]);
      EncodeAppend(st, s[..3], s[3..]);
      assert s[..3] + s[3..] == s;
      EncoderIsEncoding(e.state, s[3..]);
      var f := EncodeBytes(e.state, s[3..]);
      assert EncodeBytes(st, s).text + Finish(f.state) == e.text + (f.text + Finish(f.state));
    }
  }

  // ----- the decoder

  datatype DecodeStep = WantFirst | WantSecond | WantThird | WantFourth

  /** plain holds the bits known of the next byte; it means nothing at the start of a group. */
  datatype DecodeState = DecodeState(step: DecodeStep, plain: bv8)

  datatype Decoded = Decoded(state: DecodeState, bytes: seq<bv8>)

  const DecodeInit := DecodeState(WantFirst, 0)

  // what a value adds to the byte under way, and what it begins of the next
  function Begin1(f: bv8): bv8 { (f & 0x3f) << 2 }
  function Join2(plain: bv8, f: bv8): bv8 { plain | ((f & 0x30) >> 4) }
  function Begin2(f: bv8): bv8 { (f & 0x0f) << 4 }
  function Join3(plain: bv8, f: bv8): bv8 { plain | ((f & 0x3c) >> 2) }
  function Begin3(f: bv8): bv8 { (f & 0x03) << 6 }
  function Join4(plain: bv8, f: bv8): bv8 { plain | (f & 0x3f) }

  /** One 6-bit value through base64_decode_block. */
  function Accept(st: DecodeState, f: bv8): Decoded {
    match st.step
    case WantFirst => Decoded(DecodeState(WantSecond, Begin1(f)), [])
    case WantSecond => Decoded(DecodeState(WantThird, Begin2(f)), [Join2(st.plain, f)])
    case WantThird => Decoded(DecodeState(WantFourth, Begin3(f)), [Join3(st.plain, f)])
    case WantFourth => Decoded(DecodeState(WantFirst, 0), [Join4(st.plain, f)])
  }

  /** A byte as a char on a machine where char is signed. */
  type SignedByte = b: int | -128 <= b < 128

  /** Characters without a value are passed over. */
  function DecodeChar(st: DecodeState, c: char, beyond: SignedByte): Decoded {
    var v := DecodeValue(c, beyond);
    if v < 0 then Decoded(st, []) else Accept(st, v as bv8)
  }

  function DecodeChars(st: DecodeState, s: string, beyond: SignedByte): Decoded {
    if s == [] then Decoded(st, [])
    else
      var front := DecodeChars(st, s[..|s| - 1], beyond);
      var last := DecodeChar(front.state, s[|s| - 1], beyond);
      Decoded(last.state, front.bytes + last.bytes)
  }

  lemma DecodeSnoc(st: DecodeState, s: string, c: char, beyond: SignedByte)
    ensures var d := DecodeChars(st, s, beyond); var last := DecodeChar(d.state, c, beyond);
      DecodeChars(st, s + [c], beyond) == Decoded(last.state, d.bytes + last.bytes)
  {
    hide DecodeChar;
    assert (s + [c])[..|s|] == s;
  }

  /** Input in pieces gives the same output as all of it at once. */
  lemma {:induction false} DecodeAppend(st: DecodeState, s: string, t: string, beyond: SignedByte)
    ensures var d := DecodeChars(st, s, beyond); var f := DecodeChars(d.state, t, beyond);
      DecodeChars(st, s + t, beyond) == Decoded(f.state, d.bytes + f.bytes)
  {
    var d := DecodeChars(st, s, beyond);
    if t == [] {
      assert s + t == s;
    } else {
      hide DecodeChar, DecodeChars;
      var t', c := t[..|t| - 1], t[|t| - 1];
      DecodeAppend(st, s, t', beyond);
      DecodeSnoc(st, s + t', c, beyond);
      DecodeSnoc(d.state, t', c, beyond);
      var f := DecodeChars(d.state, t', beyond);
      Associative(s, t', [c]);
      Associative(d.bytes, f.bytes, DecodeChar(f.state, c, beyond).bytes);
      assert t == t' + [c];
    }
  }

  /** Decoding the character of a value. */
  lemma DecodeOfValue(st: DecodeState, s: string, v: bv8, beyond: SignedByte)
    requires v <= 63
    ensures var d := DecodeChars(st, s, beyond); var last := Accept(d.state, v);
      DecodeChars(st, s + [EncodeValue(v)], beyond) == Decoded(last.state, d.bytes + last.bytes)
  {
    hide DecodeChars, EncodeValue, Accept;
    ValueRoundTrip(v, '=', beyond);
    assert (v as int) as bv8 == v;
    DecodeSnoc(st, s, EncodeValue(v), beyond);
  }

  /** The bits the encoder took apart come together again. */
  lemma BitsMeet(a: bv8, b: bv8, c: bv8)
    ensures Join2(Begin1(Value1(a)), Value2(Keep1(a), b)) == a
    ensures Join3(Begin2(Value2(Keep1(a), b)), Value3(Keep2(b), c)) == b
    ensures Join4(Begin3(Value3(Keep2(b), c)), Value4(c)) == c
  {
  }

  /** The results of the first two, three and four values of a group. */
  lemma DecodeFour(st: DecodeState, v: bv8, w: bv8, x: bv8, y: bv8, beyond: SignedByte)
    requires st.step == WantFirst && v <= 63 && w <= 63 && x <= 63 && y <= 63
    ensures var two := [EncodeValue(v)] + [EncodeValue(w)];
      && DecodeChars(st, two, beyond) == Decoded(DecodeState(WantThird, Begin2(w)), [Join2(Begin1(v), w)])
      && DecodeChars(st, two + [EncodeValue(x)], beyond)
           == Decoded(DecodeState(WantFourth, Begin3(x)), [Join2(Begin1(v), w)] + [Join3(Begin2(w), x)])
      && DecodeChars(st, two + [EncodeValue(x)] + [EncodeValue(y)], beyond)
           == Decoded(DecodeState(WantFirst, 0), [Join2(Begin1(v), w)] + [Join3(Begin2(w), x)] + [Join4(Begin3(x), y)])
  {
    assert DecodeChars(st, [], beyond) == Decoded(st, []);
    hide DecodeChars, EncodeValue, Begin1, Begin2, Begin3, Join2, Join3, Join4;
    var one := [EncodeValue(v)];
    DecodeOfValue(st, [], v, beyond);
    assert [] + one == one;
    DecodeOfValue(st, one, w, beyond);
    var two := one + [EncodeValue(w)];
    assert DecodeChars(st, two, beyond).bytes == [Join2(Begin1(v), w)];
    DecodeOfValue(st, two, x, beyond);
    DecodeOfValue(st, two + [EncodeValue(x)], y, beyond);
  }

  /** The first two, three and four digits of a group give back one, two and three bytes. */
  lemma DecodeDigits(st: DecodeState, a: bv8, b: bv8, c: bv8, beyond: SignedByte)
    requires st.step == WantFirst
    ensures var text := Digits(a, b, c);
      && DecodeChars(st, text[..2], beyond).bytes == [a]
      && DecodeChars(st, text[..3], beyond).bytes == [a, b]
      && DecodeChars(st, text, beyond).bytes == [a, b, c] && DecodeChars(st, text, beyond).state.step == WantFirst
  {
    hide Digits, EncodeValue, Value1, Value2, Value3, Value4, Keep1, Keep2, DecodeChars;
    hide Begin1, Begin2, Begin3, Join2, Join3, Join4;
    BitsAreDigits(a, b, c);
    BitsMeet(a, b, c);
    SixBits(a, b);
    SixBits(b, c);
    SixBits(c, c);
    DecodeFour(st, Value1(a), Value2(Keep1(a), b), Value3(Keep2(b), c), Value4(c), beyond);
    var text := Digits(a, b, c);
    var two := [EncodeValue(Value1(a))] + [EncodeValue(Value2(Keep1(a), b))];
    assert text[..2] == two && text[..3] == two + [text[2]] && text == two + [text[2]] + [text[3]];
  }

  lemma {:induction false} PaddingSkipped(st: DecodeState, s: string, beyond: SignedByte)
    requires forall i :: 0 <= i < |s| ==> s[i] == '=' || s[i] == '\n'
    ensures DecodeChars(st, s, beyond) == Decoded(st, [])
  {
    if s != [] {
      PaddingSkipped(st, s[..|s| - 1], beyond);
    }
  }

  lemma DecodePadded(st: DecodeState, digits: string, pad: string, beyond: SignedByte)
    requires forall i :: 0 <= i < |pad| ==> pad[i] == '=' || pad[i] == '\n'
    ensures DecodeChars(st, digits + pad, beyond).bytes == DecodeChars(st, digits, beyond).bytes
  {
    hide DecodeChars;
    PaddingSkipped(DecodeChars(st, digits, beyond).state, pad, beyond);
    DecodeAppend(st, digits, pad, beyond);
  }

  lemma TailParts(s: seq<bv8>)
    requires |s| < 3
    ensures |s| == 0 ==> Tail(s) + "\n" == "\n"
    ensures |s| == 1 ==> Tail(s) + "\n" == Digits(s[0], 0, 0)[..2] + "==\n"
    ensures |s| == 2 ==> Tail(s) + "\n" == Digits(s[0], s[1], 0)[..3] + "=\n"
  {
    hide Digits;
  }

  lemma DecodeTail(st: DecodeState, s: seq<bv8>, beyond: SignedByte)
    requires st.step == WantFirst && |s| < 3
    ensures DecodeChars(st, Tail(s) + "\n", beyond).bytes == s
  {
    hide Digits, DecodeChars, Tail;
    TailParts(s);
    if |s| == 0 {
      PaddingSkipped(st, "\n", beyond);
    } else if |s| == 1 {
      DecodeDigits(st, s[0], 0, 0, beyond);
      DecodePadded(st, Digits(s[0], 0, 0)[..2], "==\n", beyond);
    } else {
      DecodeDigits(st, s[0], s[1], 0, beyond);
      DecodePadded(st, Digits(s[0], s[1], 0)[..3], "=\n", beyond);
    }
  }

  /** Decoding an encoding gives back the bytes. */
  lemma {:induction false} DecodesBack(st: DecodeState, s: seq<bv8>, line: nat, beyond: SignedByte)
    requires st.step == WantFirst
    ensures DecodeChars(st, Encoding(s, line), beyond).bytes == s
    decreases |s|
  {
    hide DecodeChars, Digits, Tail;
    if |s| < 3 {
      DecodeTail(st, s, beyond);
    } else {
      var digits := Digits(s[0], s[1], s[2]);
      DecodeDigits(st, s[0], s[1], s[2], beyond);
      var d := DecodeChars(st, digits, beyond);
      var full := line + 1 == GroupsPerLine;
      var rest := Encoding(s[3..], if full then 0 else line + 1);
      DecodesBack(d.state, s[3..], if full then 0 else line + 1, beyond);
      PaddingSkipped(d.state, "\n", beyond);
      DecodeAppend(d.state, "\n", rest, beyond);
      DecodeAppend(st, digits, if full then "\n" + rest else rest, beyond);
    }
  }

  /** The letters of the alphabet in a text. */
  ghost function OnlyLetters(s: string): string {
    if s == "" then "" else OnlyLetters(s[..|s| - 1]) + if s[|s| - 1] in Alphabet then [s[|s| - 1]] else ""
  }

  lemma InAlphabetIff(c: char, beyond: SignedByte)
    requires c != '{'
    ensures c in Alphabet <==> DecodeValue(c, beyond) >= 0
  {
    ValueRoundTrip(0, c, beyond);
    hide DecodeValue, Letter;
    if DecodeValue(c, beyond) >= 0 {
      var i :| 0 <= i < 64 && Letter(i) == c;
      AlphabetIs(i);
    }
    if c in Alphabet {
      AlphabetIs(0);
      var i :| 0 <= i < |Alphabet| && Alphabet[i] == c;
      AlphabetIs(i);
    }
  }

  /** Everything but the letters is passed over, wherever it stands: newlines, padding and all else. */
  lemma {:induction false} OthersPassedOver(st: DecodeState, s: string, beyond: SignedByte)
    requires '{' !in s
    ensures DecodeChars(st, s, beyond) == DecodeChars(st, OnlyLetters(s), beyond)
  {
    if s != "" {
      var front, c := s[..|s| - 1], s[|s| - 1];
      OthersPassedOver(st, front, beyond);
      InAlphabetIff(c, beyond);
      DecodeSnoc(st, front, c, beyond);
      DecodeSnoc(st, OnlyLetters(front), c, beyond);
      assert s == front + [c];
      hide DecodeChars, Alphabet, DecodeValue;
      assert OnlyLetters(front) + "" == OnlyLetters(front);
      assert DecodeChars(st, front, beyond).bytes + [] == DecodeChars(st, front, beyond).bytes;
    }
  }

  // ----- any way of cutting up the input

  ghost function Joined<T>(pieces: seq<seq<T>>): seq<T> {
    if pieces == [] then [] else Joined(pieces[..|pieces| - 1]) + pieces[|pieces| - 1]
  }

  /** One call of base64_encode_block for each piece. */
  function EncodePieces(st: EncodeState, pieces: seq<seq<bv8>>): Encoded {
    if pieces == [] then Encoded(st, "")
    else
      var front := EncodePieces(st, pieces[..|pieces| - 1]);
      var last := EncodeBytes(front.state, pieces[|pieces| - 1]);
      Encoded(last.state, front.text + last.text)
  }

  function DecodePieces(st: DecodeState, pieces: seq<string>, beyond: SignedByte): Decoded {
    if pieces == [] then Decoded(st, [])
    else
      var front := DecodePieces(st, pieces[..|pieces| - 1], beyond);
      var last := DecodeChars(front.state, pieces[|pieces| - 1], beyond);
      Decoded(last.state, front.bytes + last.bytes)
  }

  lemma {:induction false} EncodePiecesJoin(st: EncodeState, pieces: seq<seq<bv8>>)
    ensures EncodePieces(st, pieces) == EncodeBytes(st, Joined(pieces))
  {
    if pieces != [] {
      var front := pieces[..|pieces| - 1];
      EncodePiecesJoin(st, front);
      EncodeAppend(st, Joined(front), pieces[|pieces| - 1]);
    }
  }

  lemma {:induction false} DecodePiecesJoin(st: DecodeState, pieces: seq<string>, beyond: SignedByte)
    ensures DecodePieces(st, pieces, beyond) == DecodeChars(st, Joined(pieces), beyond)
  {
    if pieces != [] {
      var front := pieces[..|pieces| - 1];
      DecodePiecesJoin(st, front, beyond);
      DecodeAppend(st, Joined(front), pieces[|pieces| - 1], beyond);
    }
  }

  /** However the input is cut up, the output is the one encoding of it. */
  lemma EncodeInPieces(pieces: seq<seq<bv8>>)
    ensures var e := EncodePieces(EncodeInit, pieces); var text := e.text + Finish(e.state);
      && text == Encoding(Joined(pieces), 0)
      && |text| == 4 * ((|Joined(pieces)| + 2) / 3) + |Joined(pieces)| / 54 + 1
  {
    EncodePiecesJoin(EncodeInit, pieces);
    EncoderIsEncoding(EncodeInit, Joined(pieces));
    EncodingLength(Joined(pieces), 0);
  }

  /** However the input and the code are cut up, decoding gives back the input, whatever lies behind the
      decoder's table. */
  lemma RoundTripInPieces(pieces: seq<seq<bv8>>, code: seq<string>, beyond: SignedByte)
    requires var e := EncodePieces(EncodeInit, pieces); Joined(code) == e.text + Finish(e.state)
    ensures DecodePieces(DecodeInit, code, beyond).bytes == Joined(pieces)
  {
    EncodeInPieces(pieces);
    DecodePiecesJoin(DecodeInit, code, beyond);
    DecodesBack(DecodeInit, Joined(pieces), 0, beyond);
  }
}
