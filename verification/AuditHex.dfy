/** Lower-case hexadecimal digests. */
module AuditHex {
  import opened Common

  type byte = b: int | 0 <= b < 256

  /** A SHA-256 sum. */
  type Digest = d: seq<byte> | |d| == 32 witness seq(32, _ => 0)

  const HASH_LENGTH := 64
  const DIGITS: string := "0123456789abcdef"

  predicate IsHexDigit(ch: char) {
    '0' <= ch <= '9' || 'a' <= ch <= 'f'
  }

  /** The value of a hexadecimal digit, either case. */
  function DigitValue(ch: char): Option<nat> {
    if '0' <= ch <= '9' then Some(ch as int - '0' as int)
    else if 'a' <= ch <= 'f' then Some(ch as int - 'a' as int + 10)
    else if 'A' <= ch <= 'F' then Some(ch as int - 'A' as int + 10)
    else None
  }

  function Encode(d: seq<byte>): string {
    if d == [] then "" else [DIGITS[d[0] / 16], DIGITS[d[0] % 16]] + Encode(d[1..])
  }

  function Decode(s: string): Option<seq<byte>> {
    if s == "" then Some([])
    else if |s| == 1 then None
    else
      match (DigitValue(s[0]), DigitValue(s[1]), Decode(s[2..]))
      case (Some(hi), Some(lo), Some(rest)) =>
        if hi < 16 && lo < 16 then Some([(16 * hi + lo) as byte] + rest) else None
      case _ => None
  }

  /** A digest in the form the chain stores: 64 lower-case hexadecimal digits. */
  predicate IsAuditHash(value: string) {
    |value| == HASH_LENGTH && forall i :: 0 <= i < |value| ==> IsHexDigit(value[i])
  }

  lemma DigitRoundTrip(n: nat)
    requires n < 16
    ensures IsHexDigit(DIGITS[n]) && DigitValue(DIGITS[n]) == Some(n)
  {
  }

  lemma {:induction false} EncodeShape(d: seq<byte>)
    ensures |Encode(d)| == 2 * |d|
    ensures forall i :: 0 <= i < |Encode(d)| ==> IsHexDigit(Encode(d)[i])
  {
    if d != [] {
      EncodeShape(d[1..]);
      DigitRoundTrip(d[0] / 16);
      DigitRoundTrip(d[0] % 16);
    }
  }

  lemma {:induction false} DecodeEncode(d: seq<byte>)
    ensures Decode(Encode(d)) == Some(d)
  {
    if d != [] {
      DecodeEncode(d[1..]);
      DigitRoundTrip(d[0] / 16);
      DigitRoundTrip(d[0] % 16);
      var s := Encode(d);
      assert s[2..] == Encode(d[1..]) && s[0] == DIGITS[d[0] / 16] && s[1] == DIGITS[d[0] % 16];
      assert Decode(s) == Some([d[0]] + d[1..]);
      assert [d[0]] + d[1..] == d;
    }
  }

  lemma LowerDigit(ch: char)
    requires IsHexDigit(ch)
    ensures DigitValue(ch).Some? && DigitValue(ch).value < 16 && DIGITS[DigitValue(ch).value] == ch
  {
  }

  lemma {:induction false} EncodeDecode(s: string)
    requires |s| % 2 == 0 && forall i :: 0 <= i < |s| ==> IsHexDigit(s[i])
    ensures match Decode(s)
            case Some(d) => |d| == |s| / 2 && Encode(d) == s
            case None => false
  {
    if s != "" {
      EncodeDecode(s[2..]);
      LowerDigit(s[0]);
      LowerDigit(s[1]);
      var d := Decode(s).value;
      var hi, lo := DigitValue(s[0]).value, DigitValue(s[1]).value;
      assert d[0] == 16 * hi + lo && d[0] / 16 == hi && d[0] % 16 == lo;
      assert d[1..] == Decode(s[2..]).value;
      assert s == [s[0], s[1]] + s[2..];
    }
  }

  /** isAuditHash decodes, checks the length and encodes again: that accepts exactly these strings. */
  lemma AuditHashIsDecodeEncode(value: string)
    ensures IsAuditHash(value)
       <==> && |value| == HASH_LENGTH
            && match Decode(value)
               case Some(d) => |d| == 32 && value == Encode(d)
               case None => false
  {
    if IsAuditHash(value) {
      EncodeDecode(value);
    } else if |value| == HASH_LENGTH && Decode(value).Some? {
      EncodeShape(Decode(value).value);
    }
  }

  lemma DigestIsAuditHash(d: Digest)
    ensures IsAuditHash(Encode(d))
  {
    EncodeShape(d);
  }

  lemma EncodeInjective(a: seq<byte>, b: seq<byte>)
    requires Encode(a) == Encode(b)
    ensures a == b
  {
    DecodeEncode(a);
    DecodeEncode(b);
  }
}
