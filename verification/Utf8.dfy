// Bytes and UTF-8 (sections 3 and 4 of RFC 3629).
module Utf8 {
  import opened Wrappers

  type byte = b: int | 0 <= b < 256
  type Bytes = seq<byte>

  function EncodeChar(c: char): (bs: Bytes)
    ensures 1 <= |bs| <= 4
  {
    var n := c as int;
    if n < 0x80 then [n]
    else if n < 0x800 then [0xC0 + n / 64, 0x80 + n % 64]
    else if n < 0x1_0000 then [0xE0 + n / 64 / 64, 0x80 + n / 64 % 64, 0x80 + n % 64]
    else [0xF0 + n / 64 / 64 / 64, 0x80 + n / 64 / 64 % 64, 0x80 + n / 64 % 64, 0x80 + n % 64]
  }

  function EncodeUtf8(s: string): Bytes {
    if s == "" then [] else EncodeChar(s[0]) + EncodeUtf8(s[1..])
  }

  predicate IsTail(b: byte) {
    0x80 <= b < 0xC0
  }

  // The number of octets a leading octet announces; 0 if it leads nothing.
  function Announced(b: byte): nat {
    if b < 0x80 then 1
    else if 0xC2 <= b < 0xE0 then 2
    else if 0xE0 <= b < 0xF0 then 3
    else if 0xF0 <= b < 0xF5 then 4
    else 0
  }

  predicate IsScalar(n: int) {
    0 <= n < 0xD800 || 0xE000 <= n < 0x11_0000
  }

  // The character at the front of `bs`, in its shortest form, and never a surrogate.
  function DecodeChar(bs: Bytes): Option<char>
    requires bs != []
  {
    var n := Announced(bs[0]);
    if n == 0 || |bs| < n || (exists i :: 1 <= i < n && !IsTail(bs[i])) then None
    else
      var code := Code(bs[..n]);
      if code < Shortest(n) || !IsScalar(code) then None else Some(code as char)
  }

  // Six more bits, from a tail octet.
  function Join(high: int, tail: int): int {
    high * 64 + (tail - 0x80)
  }

  // The number a whole sequence of `n` octets stands for.
  function Code(bs: Bytes): int
    requires 1 <= |bs| <= 4
  {
    if |bs| == 1 then bs[0]
    else if |bs| == 2 then Join(bs[0] as int - 0xC0, bs[1])
    else if |bs| == 3 then Join(Join(bs[0] as int - 0xE0, bs[1]), bs[2])
    else Join(Join(Join(bs[0] as int - 0xF0, bs[1]), bs[2]), bs[3])
  }

  // The least number that needs `n` octets.
  function Shortest(n: nat): int {
    if n <= 1 then 0 else if n == 2 then 0x80 else if n == 3 then 0x800 else 0x1_0000
  }

  function DecodeUtf8(bs: Bytes): Option<string> {
    if bs == [] then Some("")
    else
      var c := DecodeChar(bs);
      if c.None? then None
      else
        var rest := DecodeUtf8(bs[Announced(bs[0])..]);
        if rest.None? then None else Some([c.value] + rest.value)
  }

  predicate IsUtf8(bs: Bytes) {
    DecodeUtf8(bs).Some?
  }

  lemma DecodeEncodedChar(c: char, rest: Bytes)
    ensures DecodeChar(EncodeChar(c) + rest) == Some(c)
    ensures Announced((EncodeChar(c) + rest)[0]) == |EncodeChar(c)|
  {
    var bs := EncodeChar(c) + rest;
    CodeOfEncoded(c);
    hide EncodeChar, Code;
    assert bs[..|EncodeChar(c)|] == EncodeChar(c);
    assert forall i :: 1 <= i < |EncodeChar(c)| ==> bs[i] == EncodeChar(c)[i];
  }

  lemma CodeOfEncoded(c: char)
    ensures var bs := EncodeChar(c);
            && Announced(bs[0]) == |bs|
            && (forall i :: 1 <= i < |bs| ==> IsTail(bs[i]))
            && Code(bs) == c as int >= Shortest(|bs|)
  {
  }

  lemma EncodeDecodedChar(bs: Bytes)
    requires bs != [] && DecodeChar(bs).Some?
    ensures Announced(bs[0]) <= |bs|
    ensures EncodeChar(DecodeChar(bs).value) == bs[..Announced(bs[0])]
  {
    var n := Announced(bs[0]);
    assert forall i :: 1 <= i < n ==> IsTail(bs[i]);
    EncodedOfCode(bs[..n], DecodeChar(bs).value);
  }

  lemma EncodedOfCode(bs: Bytes, c: char)
    requires 1 <= |bs| == Announced(bs[0])
    requires forall i :: 1 <= i < |bs| ==> IsTail(bs[i])
    requires c as int == Code(bs) >= Shortest(|bs|)
    ensures EncodeChar(c) == bs
  {
    var n := |bs|;
    if n >= 2 {
      var lead := bs[0] as int - (if n == 2 then 0xC0 else if n == 3 then 0xE0 else 0xF0);
      assert IsTail(bs[1]);
      JoinSplits(lead, bs[1]);
      if n >= 3 {
        var two := Join(lead, bs[1]);
        assert IsTail(bs[2]);
        JoinSplits(two, bs[2]);
        if n >= 4 {
          assert IsTail(bs[3]);
          JoinSplits(Join(two, bs[2]), bs[3]);
        }
      }
    }
    hide Join;
  }

  lemma JoinSplits(high: int, tail: byte)
    requires IsTail(tail)
    ensures Join(high, tail) / 64 == high && Join(high, tail) % 64 == tail as int - 0x80
  {
  }

  // Decoding and encoding are inverse to each other in both directions.
  lemma {:induction false} DecodeEncodeUtf8(s: string)
    ensures DecodeUtf8(EncodeUtf8(s)) == Some(s)
  {
    if s != "" {
      DecodeEncodeUtf8(s[1..]);
      DecodeEncodedChar(s[0], EncodeUtf8(s[1..]));
      assert EncodeUtf8(s)[|EncodeChar(s[0])|..] == EncodeUtf8(s[1..]);
      assert [s[0]] + s[1..] == s;
    }
  }

  lemma {:induction false} EncodeDecodeUtf8(bs: Bytes)
    requires IsUtf8(bs)
    ensures EncodeUtf8(DecodeUtf8(bs).value) == bs
  {
    hide Announced, DecodeChar, EncodeChar;
    if bs != [] {
      EncodeDecodedChar(bs);
      var n := Announced(bs[0]);
      EncodeDecodeUtf8(bs[n..]);
      EncodeUtf8Front(DecodeChar(bs).value, DecodeUtf8(bs[n..]).value);
      assert bs[..n] + bs[n..] == bs;
    }
  }

  lemma EncodeUtf8Front(c: char, s: string)
    ensures EncodeUtf8([c] + s) == EncodeChar(c) + EncodeUtf8(s)
  {
    assert ([c] + s)[1..] == s;
    hide EncodeChar;
  }
}
