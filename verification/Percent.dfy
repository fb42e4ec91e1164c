// Percent-encoding (section 2 of RFC 3986), as the urlencoding crate does it: every octet that is
// not unreserved is escaped, and what is not an escape decodes to itself.
module Percent {
  import opened Wrappers
  import opened Utf8

  const HEX := "0123456789ABCDEF"

  predicate IsUnreserved(c: char) {
    || 'A' <= c <= 'Z' || 'a' <= c <= 'z' || '0' <= c <= '9'
    || c == '-' || c == '.' || c == '_' || c == '~'
  }

  function HexValue(c: char): Option<nat> {
    if '0' <= c <= '9' then Some(c as int - '0' as int)
    else if 'A' <= c <= 'F' then Some(c as int - 'A' as int + 10)
    else if 'a' <= c <= 'f' then Some(c as int - 'a' as int + 10)
    else None
  }

  function EncodeByte(b: byte): string {
    if b < 0x80 && IsUnreserved(b as char) then [b as char] else ['%', HEX[b / 16], HEX[b % 16]]
  }

  function EncodeBytes(bs: Bytes): string {
    if bs == [] then "" else EncodeByte(bs[0]) + EncodeBytes(bs[1..])
  }

  function DecodeBytes(s: string): Bytes {
    if s == "" then []
    else if |s| >= 3 && s[0] == '%' && HexValue(s[1]).Some? && HexValue(s[2]).Some? then
      HexPair(s[1], s[2]) + DecodeBytes(s[3..])
    else EncodeChar(s[0]) + DecodeBytes(s[1..])
  }

  function HexPair(c: char, d: char): Bytes
    requires HexValue(c).Some? && HexValue(d).Some?
  {
    [HexValue(c).value * 16 + HexValue(d).value]
  }

  function Encode(s: string): string {
    EncodeBytes(EncodeUtf8(s))
  }

  function Decode(s: string): Option<string> {
    DecodeUtf8(DecodeBytes(s))
  }

  lemma HexRoundTrip(n: nat)
    requires n < 16
    ensures HexValue(HEX[n]) == Some(n)
  {
    if n < 10 {
      assert HEX[n] == '0' + n as char;
    } else {
      assert HEX[n] == 'A' + (n - 10) as char;
    }
  }

  lemma HexPairRoundTrip(b: byte)
    ensures HexValue(HEX[b / 16]).Some? && HexValue(HEX[b % 16]).Some?
    ensures HexPair(HEX[b / 16], HEX[b % 16]) == [b]
  {
    HexRoundTrip(b / 16);
    HexRoundTrip(b % 16);
    hide HexValue;
  }

  lemma DecodeEncodedByte(b: byte, rest: string)
    ensures DecodeBytes(EncodeByte(b) + rest) == [b] + DecodeBytes(rest)
  {
    var s := EncodeByte(b) + rest;
    HexPairRoundTrip(b);
    hide HexPair, HexValue;
    if b < 0x80 && IsUnreserved(b as char) {
      assert s[0] == b as char && s[1..] == rest;
      assert EncodeChar(s[0]) == [b];
    } else {
      assert s[0] == '%' && s[1] == HEX[b / 16] && s[2] == HEX[b % 16] && s[3..] == rest;
    }
  }

  lemma {:induction false} DecodeEncodeBytes(bs: Bytes)
    ensures DecodeBytes(EncodeBytes(bs)) == bs
  {
    if bs != [] {
      DecodeEncodedByte(bs[0], EncodeBytes(bs[1..]));
      DecodeEncodeBytes(bs[1..]);
    }
  }

  // Every string comes back.
  lemma DecodeEncode(s: string)
    ensures Decode(Encode(s)) == Some(s)
  {
    DecodeEncodeBytes(EncodeUtf8(s));
    DecodeEncodeUtf8(s);
  }

  predicate IsToken(s: string) {
    forall i :: 0 <= i < |s| ==> s[i] == '%' || IsUnreserved(s[i])
  }

  lemma {:induction false} EncodedIsToken(bs: Bytes)
    ensures IsToken(EncodeBytes(bs)) && |EncodeBytes(bs)| >= |bs|
  {
    if bs != [] {
      EncodedIsToken(bs[1..]);
      hide EncodeBytes;
      assert forall n: nat :: n < 16 ==> IsUnreserved(HEX[n]);
    }
  }

  lemma TextIsToken(s: string)
    ensures IsToken(Encode(s))
  {
    EncodedIsToken(EncodeUtf8(s));
  }

  lemma {:induction false} EncodeBytesJoins(a: Bytes, b: Bytes)
    ensures EncodeBytes(a + b) == EncodeBytes(a) + EncodeBytes(b)
  {
    hide EncodeByte;
    if a == [] {
      assert a + b == b;
    } else {
      EncodeBytesJoins(a[1..], b);
      assert (a + b)[1..] == a[1..] + b;
      var head, tail := EncodeByte(a[0]), EncodeBytes(a[1..]);
      assert EncodeBytes(a + b) == head + EncodeBytes(a[1..] + b);
      assert head + (tail + EncodeBytes(b)) == (head + tail) + EncodeBytes(b);
    }
  }

  // What is unreserved is still there after encoding.
  lemma {:induction false} EncodeKeeps(s: string, c: char)
    requires c in s && IsUnreserved(c)
    ensures c in Encode(s)
  {
    EncodeBytesJoins(EncodeChar(s[0]), EncodeUtf8(s[1..]));
    EncodedChar(s[0]);
    if s[0] != c {
      assert c in s[1..];
      EncodeKeeps(s[1..], c);
    }
    hide IsUnreserved, EncodeBytes;
  }

  // Encoding leaves a string alone exactly when it is made of unreserved characters.
  lemma {:induction false} EncodedIsSameIff(s: string)
    ensures |Encode(s)| >= |s|
    ensures Encode(s) == s <==> forall i :: 0 <= i < |s| ==> IsUnreserved(s[i])
    ensures |Encode(s)| == |s| ==> Encode(s) == s
  {
    if s != "" {
      EncodedIsSameIff(s[1..]);
      EncodeBytesJoins(EncodeChar(s[0]), EncodeUtf8(s[1..]));
      EncodedChar(s[0]);
      var head := EncodeBytes(EncodeChar(s[0]));
      assert Encode(s) == head + Encode(s[1..]);
      if IsUnreserved(s[0]) {
        assert Encode(s)[1..] == Encode(s[1..]);
        assert s == [s[0]] + s[1..];
        assert forall i :: 0 < i < |s| ==> s[i] == s[1..][i - 1];
      } else {
        assert |Encode(s)| > |s|;
      }
    }
  }

  lemma EncodedChar(c: char)
    ensures IsUnreserved(c) ==> EncodeBytes(EncodeChar(c)) == [c]
    ensures !IsUnreserved(c) ==> |EncodeBytes(EncodeChar(c))| >= 3
    ensures |EncodeBytes(EncodeChar(c))| >= 1
  {
    var bs := EncodeChar(c);
    assert EncodeBytes(bs) == EncodeByte(bs[0]) + EncodeBytes(bs[1..]);
    if (c as int) < 0x80 {
      assert bs == [c as int] && bs[1..] == [];
    }
  }
}
