/**
 * The binary-to-text codec of lib/auth.ts: the standard base64 encoding of
 * section 4 of RFC 4648 (what `Buffer.toString("base64")` produces), and the
 * URL-safe variant of section 5 with the padding of section 3.2 dropped on
 * encoding and restored on decoding (`b64urlEncode` / `b64urlDecode`).
 */
module Base64 {
  import opened Wrappers
  import opened JsString

  type byte = x: int | 0 <= x < 256
  type sextet = x: int | 0 <= x < 64

  /** The value of a character of the standard alphabet (Table 1 of RFC 4648). */
  function StdValue(c: char): (r: Option<sextet>)
  {
    if 'A' <= c <= 'Z' then Some(c as int - 'A' as int)
    else if 'a' <= c <= 'z' then Some(c as int - 'a' as int + 26)
    else if '0' <= c <= '9' then Some(c as int - '0' as int + 52)
    else if c == '+' then Some(62)
    else if c == '/' then Some(63)
    else None
  }

  predicate IsStdChar(c: char) {
    StdValue(c).Some?
  }

  /** The character of the standard alphabet that encodes `v`. */
  function StdChar(v: sextet): (c: char)
    ensures StdValue(c) == Some(v)
  {
    if v < 26 then ('A' as int + v) as char
    else if v < 52 then ('a' as int + (v - 26)) as char
    else if v < 62 then ('0' as int + (v - 52)) as char
    else if v == 62 then '+'
    else '/'
  }

  /** Three bytes as four characters. */
  function Quantum(b0: byte, b1: byte, b2: byte): string {
    [StdChar(b0 / 4), StdChar((b0 % 4) * 16 + b1 / 16), StdChar((b1 % 16) * 4 + b2 / 64), StdChar(b2 % 64)]
  }

  /** A final group of one byte: two characters. */
  function FinalOne(b0: byte): string {
    [StdChar(b0 / 4), StdChar((b0 % 4) * 16)]
  }

  /** A final group of two bytes: three characters. */
  function FinalTwo(b0: byte, b1: byte): string {
    [StdChar(b0 / 4), StdChar((b0 % 4) * 16 + b1 / 16), StdChar((b1 % 16) * 4)]
  }

  /** The encoding without its `=` padding; a final group of 1 or 2 bytes gives 2 or 3 characters. */
  function Base64NoPad(b: seq<byte>): (r: string)
    ensures forall i :: 0 <= i < |r| ==> IsStdChar(r[i])
    ensures |b| > 0 ==> |r| >= 2
    decreases |b|
  {
    if |b| == 0 then ""
    else if |b| == 1 then FinalOne(b[0])
    else if |b| == 2 then FinalTwo(b[0], b[1])
    else Quantum(b[0], b[1], b[2]) + Base64NoPad(b[3..])
  }

  lemma NoPadFirstGroup(b: seq<byte>)
    requires |b| >= 3
    ensures |Base64NoPad(b)| == 4 + |Base64NoPad(b[3..])|
  {
  }

  /** Every full group gives four characters, a final group of 1 or 2 bytes gives 2 or 3. */
  lemma {:induction false} NoPadLength(b: seq<byte>)
    ensures |Base64NoPad(b)| == 4 * (|b| / 3) + (if |b| % 3 == 0 then 0 else |b| % 3 + 1)
    decreases |b|
  {
    if |b| >= 3 {
      var t := b[3..];
      NoPadLength(t);
      NoPadFirstGroup(b);
      GroupCount(|t|);
    }
  }

  /** So the unpadded text falls short of a multiple of 4 by exactly the padding it dropped. */
  lemma NoPadShortfall(b: seq<byte>)
    ensures |Base64NoPad(b)| % 4 == (if |b| % 3 == 0 then 0 else |b| % 3 + 1)
  {
    NoPadLength(b);
    GroupRemainder(|b| / 3, if |b| % 3 == 0 then 0 else |b| % 3 + 1);
  }

  lemma GroupRemainder(q: nat, r: nat)
    requires r < 4
    ensures (4 * q + r) % 4 == r
  {
  }

  lemma GroupCount(k: nat)
    ensures (k + 3) / 3 == k / 3 + 1 && (k + 3) % 3 == k % 3
  {
  }

  /** The `=` characters that complete the final group of an encoding of `n` bytes. */
  function Padding(n: nat): string {
    if n % 3 == 1 then "==" else if n % 3 == 2 then "=" else ""
  }

  /** `Buffer.from(b).toString("base64")`. */
  function Base64Encode(b: seq<byte>): string {
    Base64NoPad(b) + Padding(|b|)
  }

  /** Bytes from the values of four characters (the last one or two may be unused). */
  function Byte0(c0: sextet, c1: sextet): byte { c0 * 4 + c1 / 16 }
  function Byte1(c1: sextet, c2: sextet): byte { (c1 % 16) * 16 + c2 / 4 }
  function Byte2(c2: sextet, c3: sextet): byte { (c2 % 4) * 64 + c3 }

  /** A group of four characters of the alphabet: three bytes. */
  function DecodeFull(q: string): Option<seq<byte>>
    requires |q| == 4
  {
    match (StdValue(q[0]), StdValue(q[1]), StdValue(q[2]), StdValue(q[3]))
    case (Some(c0), Some(c1), Some(c2), Some(c3)) => Some([Byte0(c0, c1), Byte1(c1, c2), Byte2(c2, c3)])
    case _ => None
  }

  /** The last group, which may end in `==` (one byte) or `=` (two bytes). */
  function DecodeFinal(q: string): Option<seq<byte>>
    requires |q| == 4
  {
    if q[2] == '=' && q[3] == '=' then
      match (StdValue(q[0]), StdValue(q[1]))
      case (Some(c0), Some(c1)) => Some([Byte0(c0, c1)])
      case _ => None
    else if q[3] == '=' then
      match (StdValue(q[0]), StdValue(q[1]), StdValue(q[2]))
      case (Some(c0), Some(c1), Some(c2)) => Some([Byte0(c0, c1), Byte1(c1, c2)])
      case _ => None
    else DecodeFull(q)
  }

  /** Decoding of well-formed padded base64; `None` for any other text. */
  function Base64Decode(s: string): Option<seq<byte>>
    decreases |s|
  {
    if |s| == 0 then Some([])
    else if |s| < 4 then None
    else if |s| == 4 then DecodeFinal(s)
    else
      match (DecodeFull(s[..4]), Base64Decode(s[4..]))
      case (Some(head), Some(tail)) => Some(head + tail)
      case _ => None
  }

  lemma QuantumRoundTrip(b0: byte, b1: byte, b2: byte)
    ensures DecodeFull(Quantum(b0, b1, b2)) == Some([b0, b1, b2])
  {
    var c0, c1, c2, c3 := b0 / 4, (b0 % 4) * 16 + b1 / 16, (b1 % 16) * 4 + b2 / 64, b2 % 64;
    assert c1 / 16 == b0 % 4 && c1 % 16 == b1 / 16;
    assert c2 / 4 == b1 % 16 && c2 % 4 == b2 / 64;
  }

  lemma OneByteRoundTrip(b: seq<byte>)
    requires |b| == 1
    ensures Base64Decode(Base64Encode(b)) == Some(b)
  {
    var c0, c1 := b[0] / 4, (b[0] % 4) * 16;
    assert c1 / 16 == b[0] % 4;
    var s := Base64Encode(b);
    assert s == [StdChar(c0), StdChar(c1), '=', '='];
    assert Base64Decode(s) == DecodeFinal(s) == Some([Byte0(c0, c1)]);
    assert Byte0(c0, c1) == b[0] && [b[0]] == b;
  }

  lemma TwoByteRoundTrip(b: seq<byte>)
    requires |b| == 2
    ensures Base64Decode(Base64Encode(b)) == Some(b)
  {
    var c0, c1, c2 := b[0] / 4, (b[0] % 4) * 16 + b[1] / 16, (b[1] % 16) * 4;
    assert c1 / 16 == b[0] % 4 && c1 % 16 == b[1] / 16 && c2 / 4 == b[1] % 16;
    var s := Base64Encode(b);
    assert s == [StdChar(c0), StdChar(c1), StdChar(c2), '='];
    assert s[2] != '=';
    assert Base64Decode(s) == DecodeFinal(s) == Some([Byte0(c0, c1), Byte1(c1, c2)]);
    assert [b[0], b[1]] == b;
  }

  /** From three bytes on, the encoding is the first group followed by the encoding of the rest. */
  lemma EncodeFirstGroup(b: seq<byte>)
    requires |b| >= 3
    ensures Base64Encode(b) == Quantum(b[0], b[1], b[2]) + Base64Encode(b[3..])
  {
    assert Padding(|b|) == Padding(|b[3..]|);
  }

  /** Three bytes are exactly one unpadded group. */
  lemma ThreeByteRoundTrip(b: seq<byte>)
    requires |b| == 3
    ensures Base64Decode(Base64Encode(b)) == Some(b)
  {
    var q := Quantum(b[0], b[1], b[2]);
    EncodeFirstGroup(b);
    assert Base64Encode(b[3..]) == "";
    assert Base64Encode(b) == q;
    QuantumRoundTrip(b[0], b[1], b[2]);
    assert Base64Decode(q) == DecodeFinal(q) == DecodeFull(q);
    assert [b[0], b[1], b[2]] == b;
  }

  /** A full group in front of a non-empty decodable text decodes to its bytes in front. */
  lemma DecodeGroupThen(q: string, rest: string, head: seq<byte>, tail: seq<byte>)
    requires |q| == 4 && |rest| > 0
    requires DecodeFull(q) == Some(head) && Base64Decode(rest) == Some(tail)
    ensures Base64Decode(q + rest) == Some(head + tail)
  {
    var s := q + rest;
    assert s[..4] == q && s[4..] == rest;
  }

  lemma FirstThree(b: seq<byte>)
    requires |b| >= 3
    ensures [b[0], b[1], b[2]] + b[3..] == b
  {
  }

  /** Decoding inverts the standard encoding (section 4 of RFC 4648). */
  lemma {:induction false} Base64RoundTrip(b: seq<byte>)
    ensures Base64Decode(Base64Encode(b)) == Some(b)
    decreases |b|
  {
    if |b| == 1 {
      OneByteRoundTrip(b);
    } else if |b| == 2 {
      TwoByteRoundTrip(b);
    } else if |b| == 3 {
      ThreeByteRoundTrip(b);
    } else if |b| > 3 {
      var q, rest := Quantum(b[0], b[1], b[2]), Base64Encode(b[3..]);
      var head, tail := [b[0], b[1], b[2]], b[3..];
      EncodeFirstGroup(b);
      QuantumRoundTrip(b[0], b[1], b[2]);
      Base64RoundTrip(tail);
      assert |rest| > 0;
      DecodeGroupThen(q, rest, head, tail);
      FirstThree(b);
    }
  }

  /** The characters of the URL- and filename-safe alphabet (Table 2 of RFC 4648). */
  predicate IsUrlChar(c: char) {
    'A' <= c <= 'Z' || 'a' <= c <= 'z' || '0' <= c <= '9' || c == '-' || c == '_'
  }

  /** `.replace(/\+/g, "-").replace(/\//g, "_")` */
  function ToUrlAlphabet(s: string): string {
    ReplaceAll(ReplaceAll(s, '+', '-'), '/', '_')
  }

  /** `.replace(/-/g, "+").replace(/_/g, "/")` */
  function FromUrlAlphabet(s: string): string {
    ReplaceAll(ReplaceAll(s, '-', '+'), '_', '/')
  }

  /** `b64urlEncode`: standard base64, then the URL alphabet, then the trailing `=` run removed. */
  function B64UrlEncode(b: seq<byte>): string {
    StripTrailing(ToUrlAlphabet(Base64Encode(b)), '=')
  }

  /** `=` appended up to the next multiple of 4 characters. */
  function Repad(t: string): (r: string)
    ensures |r| % 4 == 0 && |t| <= |r| < |t| + 4
    ensures r[..|t|] == t && forall i :: |t| <= i < |r| ==> r[i] == '='
  {
    var pad := |t| % 4;
    if pad != 0 then t + Repeat('=', 4 - pad) else t
  }

  /** The value `b64urlDecode` computes: back to the standard alphabet, re-padded to a multiple of 4. */
  function B64UrlDecoded(s: string): Option<seq<byte>> {
    Base64Decode(Repad(FromUrlAlphabet(s)))
  }

  /** `b64urlDecode`, which reassigns its argument and appends the padding. */
  method B64UrlDecode(input: string) returns (r: Option<seq<byte>>)
    ensures r == B64UrlDecoded(input)
    ensures forall b: seq<byte> {:trigger B64UrlEncode(b)} :: B64UrlEncode(b) == input ==> r == Some(b)
  {
    var s := FromUrlAlphabet(input);
    var pad := |s| % 4;
    if pad != 0 {
      s := s + Repeat('=', 4 - pad);
    }
    r := Base64Decode(s);
    assert r == B64UrlDecoded(input);
    forall b: seq<byte> | B64UrlEncode(b) == input
      ensures r == Some(b)
    {
      B64UrlRoundTrip(b);
    }
  }

  /** The URL encoding is the unpadded standard encoding in the URL alphabet. */
  lemma UrlEncodeUnpadded(b: seq<byte>)
    ensures B64UrlEncode(b) == ToUrlAlphabet(Base64NoPad(b))
  {
    var x := ToUrlAlphabet(Base64NoPad(b));
    var n := |Padding(|b|)|;
    assert Padding(|b|) == Repeat('=', n);
    assert ToUrlAlphabet(Base64Encode(b)) == x + Repeat('=', n);
    StripTrailingRun(x, '=', n);
  }

  /** Every character of `b64urlEncode`'s output is in the URL-safe alphabet: no `=`, no `.`. */
  lemma UrlEncodeAlphabet(b: seq<byte>)
    ensures forall i :: 0 <= i < |B64UrlEncode(b)| ==> IsUrlChar(B64UrlEncode(b)[i])
    ensures '=' !in B64UrlEncode(b) && '.' !in B64UrlEncode(b)
  {
    UrlEncodeUnpadded(b);
  }

  /** Going to the URL alphabet and back is the identity on standard-alphabet text. */
  lemma UrlAlphabetRoundTrip(s: string)
    requires forall i :: 0 <= i < |s| ==> IsStdChar(s[i])
    ensures FromUrlAlphabet(ToUrlAlphabet(s)) == s
  {
  }

  /** The padding `b64urlDecode` restores is exactly the padding the standard encoding carries. */
  lemma RepadRestoresPadding(b: seq<byte>)
    ensures Repad(Base64NoPad(b)) == Base64Encode(b)
  {
    var t := Base64NoPad(b);
    NoPadShortfall(b);
    if |t| % 4 != 0 {
      assert Repeat('=', 4 - |t| % 4) == Padding(|b|);
    }
  }

  /** `b64urlDecode(b64urlEncode(b)) == b` for every byte sequence. */
  lemma B64UrlRoundTrip(b: seq<byte>)
    ensures B64UrlDecoded(B64UrlEncode(b)) == Some(b)
  {
    var t := Base64NoPad(b);
    UrlEncodeUnpadded(b);
    UrlAlphabetRoundTrip(t);
    assert FromUrlAlphabet(B64UrlEncode(b)) == t;
    RepadRestoresPadding(b);
    Base64RoundTrip(b);
  }
}
