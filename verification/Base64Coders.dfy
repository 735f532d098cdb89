/** base64_encode_block, base64_encode_finish and base64_decode_block on their state structures and output
    buffers, proved against the functions of module Base64. An offset into the buffer stands for the
    pointer the caller passes. */
module Base64Coders {
  import opened Base64

  /** Buffers that differ at most in the given stretch. */
  ghost predicate SameOutside<T>(was: seq<T>, now: seq<T>, from: int, to: int) {
    |was| == |now| && forall k :: 0 <= k < |now| && !(from <= k < to) ==> now[k] == was[k]
  }

  /** The text stands in the buffer from the given place on. */
  ghost predicate Holds<T>(buffer: seq<T>, at: nat, text: seq<T>) {
    at + |text| <= |buffer| && buffer[at..at + |text|] == text
  }

  /** Text put behind other text. */
  lemma HoldsJoin<T>(start: seq<T>, was: seq<T>, now: seq<T>, at: nat, s: seq<T>, t: seq<T>, extra: nat)
    requires SameOutside(start, was, at, at + |s| + extra) && Holds(was, at, s)
    requires SameOutside(was, now, at + |s|, at + |s| + |t| + extra) && Holds(now, at + |s|, t)
    ensures Holds(now, at, s + t) && SameOutside(start, now, at, at + |s + t| + extra)
  {
    var m, n := at + |s|, at + |s| + |t|;
    assert now[at..m] == was[at..m];
    assert now[at..n] == now[at..m] + now[m..n];
  }

  lemma EncodePrefix(st: EncodeState, s: seq<bv8>, i: nat)
    requires i < |s|
    ensures var e := EncodeBytes(st, s[..i]); var last := EncodeByte(e.state, s[i]);
      EncodeBytes(st, s[..i + 1]) == Encoded(last.state, e.text + last.text)
    ensures |EncodeBytes(st, s[..i + 1]).text| <= |EncodeBytes(st, s).text|
  {
    hide EncodeBytes, EncodeByte;
    assert s[..i + 1] == s[..i] + [s[i]];
    EncodeSnoc(st, s[..i], s[i]);
    assert s == s[..i + 1] + s[i + 1..];
    EncodeAppend(st, s[..i + 1], s[i + 1..]);
  }

  lemma DecodePrefix(st: DecodeState, s: string, i: nat, beyond: SignedByte)
    requires i < |s|
    ensures var d := DecodeChars(st, s[..i], beyond); var last := DecodeChar(d.state, s[i], beyond);
      DecodeChars(st, s[..i + 1], beyond) == Decoded(last.state, d.bytes + last.bytes)
    ensures |DecodeChars(st, s[..i + 1], beyond).bytes| <= |DecodeChars(st, s, beyond).bytes|
  {
    hide DecodeChars, DecodeChar;
    assert s[..i + 1] == s[..i] + [s[i]];
    DecodeSnoc(st, s[..i], s[i], beyond);
    assert s == s[..i + 1] + s[i + 1..];
    DecodeAppend(st, s[..i + 1], s[i + 1..], beyond);
  }

  class Encoder {
    var step: EncodeStep
    var result: bv8
    var stepcount: nat

    function State(): EncodeState
      reads this
    {
      EncodeState(step, result, stepcount)
    }

    /** base64_encode_init. */
    constructor ()
      ensures State() == EncodeInit
    {
      step, result, stepcount := A, 0, 0;
    }

    /** One turn of the loop of base64_encode_block. */
    method PutByte(b: bv8, out: array<char>, at: nat) returns (end: nat)
      requires at + |EncodeByte(State(), b).text| <= out.Length
      modifies this, out
      ensures State() == EncodeByte(old(State()), b).state
      ensures end == at + |EncodeByte(old(State()), b).text| && Holds(out[..], at, EncodeByte(old(State()), b).text)
      ensures SameOutside(old(out[..]), out[..], at, end)
    {
      hide EncodeValue, Value1, Value2, Value3, Value4, Keep1, Keep2;
      match step {
        case A =>
          result := Value1(b);
          out[at] := EncodeValue(result);
          result := Keep1(b);
          step := B;
          end := at + 1;
        case B =>
          result := Value2(result, b);
          out[at] := EncodeValue(result);
          result := Keep2(b);
          step := C;
          end := at + 1;
        case C =>
          result := Value3(result, b);
          out[at] := EncodeValue(result);
          result := Value4(b);
          out[at + 1] := EncodeValue(result);
          step := A;
          end := at + 2;
          stepcount := stepcount + 1;
          if stepcount == GroupsPerLine {
            out[end] := '\n';
            end := end + 1;
            stepcount := 0;
          }
      }
    }

    /** base64_encode_block. */
    method Block(plain: seq<bv8>, out: array<char>, at: nat) returns (n: nat)
      requires at + |EncodeBytes(State(), plain).text| <= out.Length
      modifies this, out
      ensures State() == EncodeBytes(old(State()), plain).state
      ensures n == |EncodeBytes(old(State()), plain).text| && Holds(out[..], at, EncodeBytes(old(State()), plain).text)
      ensures SameOutside(old(out[..]), out[..], at, at + n)
    {
      ghost var st := State();
      assert plain[..0] == [];
      var i, end := 0, at;
      ghost var start := out[..];
      assert EncodeBytes(st, []).text == "";
      assert Holds(start, at, EncodeBytes(st, plain[..0]).text) && SameOutside(start, start, at, at);
      assert State() == EncodeBytes(st, plain[..0]).state;
      hide EncodeByte, EncodeBytes, Holds, SameOutside;
      while i < |plain|
        invariant 0 <= i <= |plain| && end == at + |EncodeBytes(st, plain[..i]).text| <= out.Length
        invariant State() == EncodeBytes(st, plain[..i]).state
        invariant Holds(out[..], at, EncodeBytes(st, plain[..i]).text)
        invariant SameOutside(start, out[..], at, end)
      {
        ghost var was, text := out[..], EncodeBytes(st, plain[..i]).text;
        ghost var more := EncodeByte(State(), plain[i]).text;
        EncodePrefix(st, plain, i);
        var end' := PutByte(plain[i], out, end);
        HoldsJoin(start, was, out[..], at, text, more, 0);
        i, end := i + 1, end';
      }
      assert plain[..|plain|] == plain;
      n := end - at;
    }

    /** base64_encode_finish, which also writes a zero behind what it counts. */
    method Finish(out: array<char>, at: nat) returns (n: nat)
      requires at + |Base64.Finish(State())| < out.Length
      modifies out
      ensures n == |Base64.Finish(State())| && out[at..at + n] == Base64.Finish(State())
      ensures out[at + n] == 0 as char && SameOutside(old(out[..]), out[..], at, at + n + 1)
    {
      hide EncodeValue;
      n := 0;
      match step {
        case A =>
        case B =>
          out[at], out[at + 1], out[at + 2] := EncodeValue(result), '=', '=';
          n := 3;
        case C =>
          out[at], out[at + 1] := EncodeValue(result), '=';
          n := 2;
      }
      out[at + n] := '\n';
      n := n + 1;
      out[at + n] := 0 as char;
    }
  }

  /** States that differ only in bits that mean nothing. */
  ghost predicate Alike(a: DecodeState, b: DecodeState) {
    a.step == b.step && (a.step != WantFirst ==> a.plain == b.plain)
  }

  lemma AlikeAccept(a: DecodeState, b: DecodeState, f: bv8)
    requires a.step == b.step
    ensures |Accept(a, f).bytes| == |Accept(b, f).bytes|
    ensures Alike(a, b) ==> Accept(a, f) == Accept(b, f)
  {
  }

  class Decoder {
    const beyond: SignedByte
    var step: DecodeStep
    var plainchar: bv8

    function State(): DecodeState
      reads this
    {
      DecodeState(step, plainchar)
    }

    /** base64_decode_init. */
    constructor (beyond: SignedByte)
      ensures State() == DecodeInit && this.beyond == beyond
    {
      this.beyond := beyond;
      step, plainchar := WantFirst, 0;
    }

    /** A character with a value: completes the byte at the given place and begins the next. */
    method Take(f: bv8, out: array<bv8>, at: nat) returns (end: nat)
      requires at + |Accept(DecodeState(step, 0), f).bytes| < out.Length
      modifies this`step, out
      ensures end == at + |Accept(DecodeState(old(step), old(out[at])), f).bytes| < out.Length
      ensures Holds(out[..], at, Accept(DecodeState(old(step), old(out[at])), f).bytes)
      ensures Alike(DecodeState(step, out[end]), Accept(DecodeState(old(step), old(out[at])), f).state)
      ensures SameOutside(old(out[..]), out[..], at, end + 1)
    {
      hide Begin1, Begin2, Begin3, Join2, Join3, Join4;
      match step {
        case WantFirst =>
          out[at] := Begin1(f);
          step, end := WantSecond, at;
        case WantSecond =>
          out[at] := Join2(out[at], f);
          out[at + 1] := Begin2(f);
          step, end := WantThird, at + 1;
        case WantThird =>
          out[at] := Join3(out[at], f);
          out[at + 1] := Begin3(f);
          step, end := WantFourth, at + 1;
        case WantFourth =>
          out[at] := Join4(out[at], f);
          step, end := WantFirst, at + 1;
      }
    }

    /** base64_decode_block. The bits known of the next byte lie in the buffer behind the bytes counted;
        at the start of a group the state keeps whatever is there. */
    method Block(code: string, out: array<bv8>, at: nat) returns (n: nat)
      requires at + |DecodeChars(State(), code, beyond).bytes| < out.Length
      modifies this, out
      ensures Alike(State(), DecodeChars(old(State()), code, beyond).state)
      ensures n == |DecodeChars(old(State()), code, beyond).bytes|
      ensures Holds(out[..], at, DecodeChars(old(State()), code, beyond).bytes)
      ensures SameOutside(old(out[..]), out[..], at, at + n + 1)
    {
      ghost var st, start := State(), out[..];
      out[at] := plainchar;
      var i, end := 0, at;
      assert code[..0] == [];
      assert DecodeChars(st, code[..0], beyond) == Decoded(st, []);
      assert Holds(out[..], at, []) && SameOutside(start, out[..], at, end + 1) && Alike(DecodeState(step, out[at]), st);
      hide DecodeChars, DecodeChar, DecodeValue, Accept, Holds, SameOutside, Alike;
      while i < |code|
        invariant 0 <= i <= |code| && end == at + |DecodeChars(st, code[..i], beyond).bytes| < out.Length
        invariant Alike(DecodeState(step, out[end]), DecodeChars(st, code[..i], beyond).state)
        invariant Holds(out[..], at, DecodeChars(st, code[..i], beyond).bytes)
        invariant SameOutside(start, out[..], at, end + 1)
      {
        end := Next(code, i, out, at, end, st, start);
        i := i + 1;
      }
      assert code[..|code|] == code;
      plainchar := out[end];
      n := end - at;
    }

    /** One turn of the loops of base64_decode_block. */
    method Next(code: string, i: nat, out: array<bv8>, ghost at: nat, end: nat, ghost st: DecodeState, ghost start: seq<bv8>)
      returns (end': nat)
      requires i < |code| && at + |DecodeChars(st, code, beyond).bytes| < out.Length
      requires end == at + |DecodeChars(st, code[..i], beyond).bytes| < out.Length
      requires Alike(DecodeState(step, out[end]), DecodeChars(st, code[..i], beyond).state)
      requires Holds(out[..], at, DecodeChars(st, code[..i], beyond).bytes)
      requires SameOutside(start, out[..], at, end + 1)
      modifies this`step, out
      ensures end' == at + |DecodeChars(st, code[..i + 1], beyond).bytes| < out.Length
      ensures Alike(DecodeState(step, out[end']), DecodeChars(st, code[..i + 1], beyond).state)
      ensures Holds(out[..], at, DecodeChars(st, code[..i + 1], beyond).bytes)
      ensures SameOutside(start, out[..], at, end' + 1)
    {
      ghost var was, d := out[..], DecodeChars(st, code[..i], beyond);
      hide DecodeChars, Accept, Holds, SameOutside;
      DecodePrefix(st, code, i, beyond);
      var v := DecodeValue(code[i], beyond);
      end' := end;
      if v >= 0 {
        AlikeAccept(DecodeState(step, out[end]), d.state, v as bv8);
        AlikeAccept(DecodeState(step, 0), DecodeState(step, out[end]), v as bv8);
        end' := Take(v as bv8, out, end);
        HoldsJoin(start, was, out[..], at, d.bytes, Accept(d.state, v as bv8).bytes, 1);
      } else {
        assert d.bytes + [] == d.bytes;
      }
    }
  }
}
