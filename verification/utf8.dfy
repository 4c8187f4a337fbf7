/** Strict UTF-8 (section 3 of RFC 3629), as `bytes.decode("utf-8")` reads it. */
module Utf8 {
  import opened Wrappers

  type Byte = x: int | 0 <= x < 256

  predicate Tail(b: Byte) { 0x80 <= b < 0xC0 }

  /** The six payload bits of a continuation byte. */
  function Low(b: Byte): (n: int)
    requires Tail(b)
    ensures 0 <= n < 64
  {
    (b as int) - 0x80
  }

  function EncodeChar(c: char): (bs: seq<Byte>)
    ensures 1 <= |bs| <= 4
  {
    var n := c as int;
    if n < 0x80 then [n]
    else if n < 0x800 then [0xC0 + n / 64, 0x80 + n % 64]
    else if n < 0x1_0000 then [0xE0 + n / 4096, 0x80 + n / 64 % 64, 0x80 + n % 64]
    else [0xF0 + n / 262144, 0x80 + n / 4096 % 64, 0x80 + n / 64 % 64, 0x80 + n % 64]
  }

  /** The Unicode scalar values: what a `char` can hold. */
  predicate IsScalar(n: int) { 0 <= n < 0xD800 || 0xE000 <= n < 0x11_0000 }

  /** The first character and its length: shortest forms only, no surrogates, nothing past U+10FFFF. */
  function DecodeChar(bs: seq<Byte>): (r: Option<(char, nat)>)
    requires bs != []
    ensures r.Some? ==> 1 <= r.value.1 <= |bs|
  {
    var b: int := bs[0];
    if b < 0x80 then Some((b as char, 1))
    else if 0xC0 <= b < 0xE0 && |bs| >= 2 && Tail(bs[1]) then
      Checked((b - 0xC0) * 64 + Low(bs[1]), 0x80, 2)
    else if 0xE0 <= b < 0xF0 && |bs| >= 3 && Tail(bs[1]) && Tail(bs[2]) then
      Checked((b - 0xE0) * 4096 + Low(bs[1]) * 64 + Low(bs[2]), 0x800, 3)
    else if 0xF0 <= b < 0xF8 && |bs| >= 4 && Tail(bs[1]) && Tail(bs[2]) && Tail(bs[3]) then
      Checked((b - 0xF0) * 262144 + Low(bs[1]) * 4096 + Low(bs[2]) * 64 + Low(bs[3]), 0x1_0000, 4)
    else None
  }

  function Checked(n: int, least: int, length: nat): (r: Option<(char, nat)>)
    ensures r.Some? ==> r.value.1 == length
  {
    if n >= least && IsScalar(n) then Some((n as char, length)) else None
  }

  function Encode(s: string): seq<Byte> {
    if s == "" then [] else EncodeChar(s[0]) + Encode(s[1..])
  }

  function Decode(bs: seq<Byte>): Option<string>
    decreases |bs|
  {
    if bs == [] then Some("")
    else
      var first := DecodeChar(bs);
      if first.None? then None
      else
        var rest := Decode(bs[first.value.1..]);
        if rest.None? then None else Some([first.value.0] + rest.value)
  }

  lemma DecodeEncodedChar(c: char, rest: seq<Byte>)
    ensures DecodeChar(EncodeChar(c) + rest) == Some((c, |EncodeChar(c)|))
  {
    var n, bs := c as int, EncodeChar(c) + rest;
    if 0x800 <= n < 0x1_0000 {
      Recompose(n);
      assert bs[0] == 0xE0 + n / 4096 && Low(bs[1]) == n / 64 % 64 && Low(bs[2]) == n % 64;
    } else if 0x1_0000 <= n {
      Recompose(n);
      assert bs[0] == 0xF0 + n / 262144 && Low(bs[1]) == n / 4096 % 64;
      assert Low(bs[2]) == n / 64 % 64 && Low(bs[3]) == n % 64;
    }
  }

  lemma Recompose(n: int)
    requires 0 <= n < 0x11_0000
    ensures n == n / 4096 * 4096 + n / 64 % 64 * 64 + n % 64
    ensures n == n / 262144 * 262144 + n / 4096 % 64 * 4096 + n / 64 % 64 * 64 + n % 64
  {
    assert n / 4096 == n / 64 / 64;
    assert n / 262144 == n / 4096 / 64;
  }

  lemma EncodeDecodedChar(bs: seq<Byte>)
    requires bs != [] && DecodeChar(bs).Some?
    ensures var (c, n) := DecodeChar(bs).value;
            bs[..n] == EncodeChar(c)
  {
    var b: int := bs[0];
    if 0x80 <= b < 0xE0 {
      assert ((b - 0xC0) * 64 + Low(bs[1])) / 64 == b - 0xC0;
    } else if 0xE0 <= b < 0xF0 {
      Digits3(b - 0xE0, Low(bs[1]), Low(bs[2]));
    } else if 0xF0 <= b {
      Digits4(b - 0xF0, Low(bs[1]), Low(bs[2]), Low(bs[3]));
    }
  }

  lemma Digits3(a: int, b: int, c: int)
    requires 0 <= a && 0 <= b < 64 && 0 <= c < 64
    ensures var n := a * 4096 + b * 64 + c;
            n / 4096 == a && n / 64 % 64 == b && n % 64 == c
  {
    var n := a * 4096 + b * 64 + c;
    assert n / 64 == a * 64 + b;
  }

  lemma Digits4(a: int, b: int, c: int, d: int)
    requires 0 <= a && 0 <= b < 64 && 0 <= c < 64 && 0 <= d < 64
    ensures var n := a * 262144 + b * 4096 + c * 64 + d;
            n / 262144 == a && n / 4096 % 64 == b && n / 64 % 64 == c && n % 64 == d
  {
    var n := a * 262144 + b * 4096 + c * 64 + d;
    assert n / 64 == a * 4096 + b * 64 + c;
    assert n / 4096 == a * 64 + b;
  }

  lemma {:induction false} DecodeOfEncode(s: string)
    ensures Decode(Encode(s)) == Some(s)
  {
    if s != "" {
      var head, rest := EncodeChar(s[0]), Encode(s[1..]);
      DecodeEncodedChar(s[0], rest);
      assert (head + rest)[|head|..] == rest;
      DecodeOfEncode(s[1..]);
      assert [s[0]] + s[1..] == s;
    }
  }

  lemma EncodeOneMore(c: char, rest: string)
    ensures Encode([c] + rest) == EncodeChar(c) + Encode(rest)
  {
    assert ([c] + rest)[1..] == rest;
  }

  lemma {:induction false} EncodeOfDecode(bs: seq<Byte>)
    requires Decode(bs).Some?
    ensures Encode(Decode(bs).value) == bs
    decreases |bs|
  {
    if bs != [] {
      EncodeDecodedChar(bs);
      var (c, n) := DecodeChar(bs).value;
      EncodeOfDecode(bs[n..]);
      EncodeOneMore(c, Decode(bs[n..]).value);
      assert bs == bs[..n] + bs[n..];
    }
  }
}
