/** Text pieces: cutting at a separator, base64 and hexadecimal. */
module Text {
  import opened Bytes

  /** Cut at every `c`, left to right. */
  function SplitOn(s: string, c: char): (parts: seq<string>)
    ensures |parts| > 0
  {
    if s == [] then [[]]
    else
      var rest := SplitOn(s[1..], c);
      if s[0] == c then [[]] + rest else [[s[0]] + rest[0]] + rest[1..]
  }

  /** The first separator ends the first part. */
  lemma {:induction false} SplitFirst(a: string, c: char, b: string)
    requires c !in a
    ensures SplitOn(a + [c] + b, c) == [a] + SplitOn(b, c)
  {
    var s := a + [c] + b;
    if a == [] {
      assert s[1..] == b;
    } else {
      assert s[1..] == a[1..] + [c] + b;
      SplitFirst(a[1..], c, b);
      assert [s[0]] + a[1..] == a;
    }
  }

  lemma {:induction false} SplitNone(a: string, c: char)
    requires c !in a
    ensures SplitOn(a, c) == [a]
  {
    if a != [] {
      SplitNone(a[1..], c);
      assert [a[0]] + a[1..] == a;
    }
  }

  // ------------------------------------------- base64 (section 4 of RFC 4648)

  function Value64(c: char): (r: Option<nat>)
    ensures r.Some? ==> r.value < 64
  {
    if 'A' <= c <= 'Z' then Some(c as int - 'A' as int)
    else if 'a' <= c <= 'z' then Some(c as int - 'a' as int + 26)
    else if '0' <= c <= '9' then Some(c as int - '0' as int + 52)
    else if c == '+' then Some(62)
    else if c == '/' then Some(63)
    else None
  }

  function Char64(n: nat): (c: char)
    requires n < 64
    ensures c != '=' && c != ',' && c != ';' && c != '\n' && c != '\r' && c != ' '
    ensures Value64(c) == Some(n)
  {
    if n < 26 then 'A' + n as char
    else if n < 52 then 'a' + (n - 26) as char
    else if n < 62 then '0' + (n - 52) as char
    else if n == 62 then '+' else '/'
  }

  /** Three bytes as four characters. */
  function Group64(b0: int, b1: int, b2: int): (s: string)
    requires 0 <= b0 < 256 && 0 <= b1 < 256 && 0 <= b2 < 256
    ensures |s| == 4
  {
    [Char64(b0 / 4), Char64(b0 % 4 * 16 + b1 / 16), Char64(b1 % 16 * 4 + b2 / 64), Char64(b2 % 64)]
  }

  /** `base64.StdEncoding.EncodeToString`: missing bytes count as zero, and
      the characters that carry none of the data become padding. */
  function Base64(d: seq<byte>): string {
    if d == [] then ""
    else if |d| == 1 then Group64(d[0], 0, 0)[..2] + "=="
    else if |d| == 2 then Group64(d[0], d[1], 0)[..3] + "="
    else Group64(d[0], d[1], d[2]) + Base64(d[3..])
  }

  /** Four characters back to three bytes. */
  function Ungroup64(s: string): Option<seq<byte>>
    requires |s| == 4
  {
    var v0, v1, v2, v3 := Value64(s[0]), Value64(s[1]), Value64(s[2]), Value64(s[3]);
    if v0.None? || v1.None? || v2.None? || v3.None? then None
    else Some([v0.value * 4 + v1.value / 16, v1.value % 16 * 16 + v2.value / 4, v2.value % 4 * 64 + v3.value])
  }

  function Head(r: Option<seq<byte>>, n: nat): Option<seq<byte>> {
    if r.None? || |r.value| < n then None else Some(r.value[..n])
  }

  /** Groups of four characters back to bytes; padding only at the end. */
  function Unbase64(s: string): Option<seq<byte>> {
    if s == [] then Some([])
    else if |s| < 4 then None
    else if |s| == 4 && s[2] == '=' && s[3] == '=' then Head(Ungroup64(s[..2] + "AA"), 1)
    else if |s| == 4 && s[3] == '=' then Head(Ungroup64(s[..3] + "A"), 2)
    else
      var group, tail := Ungroup64(s[..4]), Unbase64(s[4..]);
      if group.None? || tail.None? then None else Some(group.value + tail.value)
  }

  /** Twenty-four bits regrouped, six at a time and back. */
  lemma Regroup(b0: int, b1: int, b2: int)
    requires 0 <= b0 < 256 && 0 <= b1 < 256 && 0 <= b2 < 256
    ensures Ungroup64(Group64(b0, b1, b2)) == Some([b0, b1, b2])
  {
    assert (b0 % 4 * 16 + b1 / 16) / 16 == b0 % 4;
    assert (b1 % 16 * 4 + b2 / 64) / 4 == b1 % 16;
  }

  predicate Plain(c: char) { c != '=' && c != ',' && c != ';' && c != '\n' }

  lemma GroupChars(b0: int, b1: int, b2: int)
    requires 0 <= b0 < 256 && 0 <= b1 < 256 && 0 <= b2 < 256
    ensures var s := Group64(b0, b1, b2); Plain(s[0]) && Plain(s[1]) && Plain(s[2]) && Plain(s[3])
  {
  }

  lemma ZeroTail(b0: int, b1: int)
    requires 0 <= b0 < 256 && 0 <= b1 < 256
    ensures Group64(b0, b1, 0)[3] == 'A' && Group64(b0, 0, 0)[2] == 'A'
  {
  }

  lemma OneRoundTrip(b0: byte)
    ensures Unbase64(Base64([b0])) == Some([b0])
  {
    var s := Group64(b0, 0, 0);
    Regroup(b0, 0, 0);
    ZeroTail(b0, 0);
    assert s[..2] + "AA" == s;
    assert (s[..2] + "==")[..2] == s[..2];
    var bytes: seq<byte> := [b0, 0, 0];
    assert bytes[..1] == [b0];
  }

  lemma TwoRoundTrip(b0: byte, b1: byte)
    ensures Unbase64(Base64([b0, b1])) == Some([b0, b1])
  {
    var s := Group64(b0, b1, 0);
    Regroup(b0, b1, 0);
    ZeroTail(b0, b1);
    GroupChars(b0, b1, 0);
    assert s[..3] + "A" == s;
    assert (s[..3] + "=")[..3] == s[..3];
    var bytes: seq<byte> := [b0, b1, 0];
    assert bytes[..2] == [b0, b1];
  }

  lemma ShortRoundTrip(d: seq<byte>)
    requires 0 < |d| < 3
    ensures Unbase64(Base64(d)) == Some(d)
  {
    if |d| == 1 {
      OneRoundTrip(d[0]);
      assert d == [d[0]];
    } else {
      TwoRoundTrip(d[0], d[1]);
      assert d == [d[0], d[1]];
    }
  }

  lemma GroupInFront(b0: byte, b1: byte, b2: byte, text: string, rest: seq<byte>)
    requires Unbase64(text) == Some(rest)
    ensures Unbase64(Group64(b0, b1, b2) + text) == Some([b0, b1, b2] + rest)
  {
    var g := Group64(b0, b1, b2);
    Regroup(b0, b1, b2);
    GroupChars(b0, b1, b2);
    assert (g + text)[..4] == g && (g + text)[4..] == text;
    assert (g + text)[2] == g[2] && (g + text)[3] == g[3];
  }

  /** Decoding undoes encoding, on every byte string. */
  lemma {:induction false} Base64RoundTrip(d: seq<byte>)
    ensures Unbase64(Base64(d)) == Some(d)
  {
    if 0 < |d| < 3 {
      ShortRoundTrip(d);
    } else if d != [] {
      Base64RoundTrip(d[3..]);
      GroupInFront(d[0], d[1], d[2], Base64(d[3..]), d[3..]);
      assert d == [d[0], d[1], d[2]] + d[3..];
    }
  }

  /** No separator of the SDP occurs in base64 text. */
  lemma {:induction false} Base64Chars(d: seq<byte>)
    ensures ',' !in Base64(d) && ';' !in Base64(d) && '\n' !in Base64(d)
  {
    if d != [] {
      GroupChars(d[0], if |d| > 1 then d[1] else 0, if |d| > 2 then d[2] else 0);
    }
    if |d| >= 3 {
      Base64Chars(d[3..]);
    }
  }

  /** The alphabet, by character code: A to Z, a to z, 0 to 9, plus and slash. */
  lemma Alphabet(n: nat)
    requires n < 64
    ensures Char64(n) as int == if n < 26 then 65 + n else if n < 52 then 71 + n else if n < 62 then n - 4
                                else if n == 62 then 43 else 47
  {
  }

  /** Four characters carry the twenty-four bits of three bytes, in order. */
  lemma GroupBits(b0: int, b1: int, b2: int)
    requires 0 <= b0 < 256 && 0 <= b1 < 256 && 0 <= b2 < 256
    ensures var s := Group64(b0, b1, b2);
            && Value64(s[0]).Some? && Value64(s[1]).Some? && Value64(s[2]).Some? && Value64(s[3]).Some?
            && 64 * (64 * (64 * Value64(s[0]).value + Value64(s[1]).value) + Value64(s[2]).value) + Value64(s[3]).value
               == 256 * (256 * b0 + b1) + b2
  {
    assert b0 == 4 * (b0 / 4) + b0 % 4 && b1 == 16 * (b1 / 16) + b1 % 16 && b2 == 64 * (b2 / 64) + b2 % 64;
  }

  lemma Codes()
    ensures Char64(25) == 'Z' && Char64(32) == 'g' && Char64(0) == 'A' && Char64(38) == 'm' && Char64(60) == '8'
    ensures Char64(61) == '9' && Char64(47) == 'v' && Char64(24) == 'Y' && Char64(5) == 'F' && Char64(50) == 'y'
  {
    assert 'a' + 6 as char == 'g' && 'a' + 12 as char == 'm' && 'a' + 21 as char == 'v' && 'a' + 24 as char == 'y';
    assert 'A' + 25 as char == 'Z' && 'A' + 24 as char == 'Y' && 'A' + 5 as char == 'F';
    assert '0' + 8 as char == '8' && '0' + 9 as char == '9';
  }

  lemma OneGroup(b0: byte, b1: byte, b2: byte, rest: seq<byte>)
    ensures Base64([b0, b1, b2] + rest) == Group64(b0, b1, b2) + Base64(rest)
  {
    assert ([b0, b1, b2] + rest)[3..] == rest;
  }

  /** Test vectors of section 10 of RFC 4648: f, fo, foo and foobar. */
  lemma Vectors()
    ensures Base64([0x66]) == ['Z', 'g', '=', '=']
    ensures Base64([0x66, 0x6f]) == ['Z', 'm', '8', '=']
    ensures Base64([0x66, 0x6f, 0x6f] + []) == ['Z', 'm', '9', 'v']
    ensures Base64([0x66, 0x6f, 0x6f] + ([0x62, 0x61, 0x72] + [])) == ['Z', 'm', '9', 'v', 'Y', 'm', 'F', 'y']
  {
    Codes();
    assert Group64(0x66, 0, 0)[..2] == [Char64(25), Char64(32)];
    assert Group64(0x66, 0x6f, 0)[..3] == [Char64(25), Char64(38), Char64(60)];
    assert Group64(0x66, 0x6f, 0x6f) == [Char64(25), Char64(38), Char64(61), Char64(47)];
    assert Group64(0x62, 0x61, 0x72) == [Char64(24), Char64(38), Char64(5), Char64(50)];
    OneGroup(0x66, 0x6f, 0x6f, []);
    OneGroup(0x62, 0x61, 0x72, []);
    OneGroup(0x66, 0x6f, 0x6f, [0x62, 0x61, 0x72] + []);
  }

  // ------------------------------------------------------------- hexadecimal

  function HexValue(c: char): (r: Option<nat>)
    ensures r.Some? ==> r.value < 16
  {
    if '0' <= c <= '9' then Some(c as int - '0' as int)
    else if 'A' <= c <= 'F' then Some(c as int - 'A' as int + 10)
    else None
  }

  function HexDigit(n: nat): (c: char)
    requires n < 16
    ensures HexValue(c) == Some(n)
    ensures c != ';' && c != '\n' && c != '\r'
  {
    if n < 10 then '0' + n as char else 'A' + (n - 10) as char
  }

  /** Each byte as "%02X" prints it. */
  function Hex(d: seq<byte>): string {
    if d == [] then "" else [HexDigit(d[0] as int / 16), HexDigit(d[0] as int % 16)] + Hex(d[1..])
  }

  function Unhex(s: string): Option<seq<byte>> {
    if s == [] then Some([])
    else if |s| < 2 || HexValue(s[0]).None? || HexValue(s[1]).None? then None
    else
      match Unhex(s[2..])
      case None => None
      case Some(tail) => Some([HexValue(s[0]).value * 16 + HexValue(s[1]).value] + tail)
  }

  lemma HexInFront(b: byte, text: string, rest: seq<byte>)
    requires Unhex(text) == Some(rest)
    ensures Unhex([HexDigit(b as int / 16), HexDigit(b as int % 16)] + text) == Some([b] + rest)
  {
    var s := [HexDigit(b as int / 16), HexDigit(b as int % 16)] + text;
    assert s[2..] == text;
    assert HexValue(s[0]) == Some(b as int / 16) && HexValue(s[1]) == Some(b as int % 16);
  }

  lemma {:induction false} HexRoundTrip(d: seq<byte>)
    ensures Unhex(Hex(d)) == Some(d)
  {
    if d != [] {
      HexRoundTrip(d[1..]);
      HexInFront(d[0], Hex(d[1..]), d[1..]);
      assert d == [d[0]] + d[1..];
    }
  }

  lemma {:induction false} HexChars(d: seq<byte>)
    ensures ';' !in Hex(d) && '\n' !in Hex(d)
  {
    if d != [] {
      HexChars(d[1..]);
    }
  }

  /** Two upper-case digits for a byte, the high one first. */
  lemma HexExact(b: byte)
    ensures |Hex([b])| == 2
    ensures forall i :: 0 <= i < 2 ==>
              var v := if i == 0 then b as int / 16 else b as int % 16;
              Hex([b])[i] as int == if v < 10 then 48 + v else 55 + v
  {
    assert [b][1..] == [];
  }
}
