/**
 * `btoa`: Base64 (standard alphabet, `=` padding) over strings whose characters all fit in
 * one byte, with a strict decoder as its inverse.
 */
module Base64 {
  import opened Wrappers

  /** Every character is a single byte, the only input `btoa` accepts. */
  predicate IsLatin1(s: string)
  {
    forall i :: 0 <= i < |s| ==> s[i] as int < 256
  }

  lemma Latin1Concat(a: string, b: string)
    requires IsLatin1(a) && IsLatin1(b)
    ensures IsLatin1(a + b)
  {
  }

  /** The Base64 alphabet: `A`-`Z`, `a`-`z`, `0`-`9`, `+`, `/`. */
  function SextetChar(v: nat): char
    requires v < 64
  {
    if v < 26 then ('A' as int + v) as char
    else if v < 52 then ('a' as int + (v - 26)) as char
    else if v < 62 then ('0' as int + (v - 52)) as char
    else if v == 62 then '+'
    else '/'
  }

  /** Position of a character in the Base64 alphabet. */
  function SextetValue(c: char): (r: Option<nat>)
    ensures r.Some? ==> r.value < 64
  {
    if 'A' <= c <= 'Z' then Some(c as int - 'A' as int)
    else if 'a' <= c <= 'z' then Some(c as int - 'a' as int + 26)
    else if '0' <= c <= '9' then Some(c as int - '0' as int + 52)
    else if c == '+' then Some(62)
    else if c == '/' then Some(63)
    else None
  }

  lemma SextetRoundTrip(v: nat)
    requires v < 64
    ensures SextetValue(SextetChar(v)) == Some(v)
  {
  }

  function Byte(c: char): (b: nat)
    requires c as int < 256
    ensures b < 256
  {
    c as int
  }

  /** Three bytes become four alphabet characters. */
  function EncodeGroup(a: nat, b: nat, c: nat): string
    requires a < 256 && b < 256 && c < 256
  {
    [SextetChar(a / 4), SextetChar((a % 4) * 16 + b / 16), SextetChar((b % 16) * 4 + c / 64), SextetChar(c % 64)]
  }

  /** A final single byte: two characters and two pad characters. */
  function EncodeTail1(a: nat): string
    requires a < 256
  {
    [SextetChar(a / 4), SextetChar((a % 4) * 16), '=', '=']
  }

  /** A final pair of bytes: three characters and one pad character. */
  function EncodeTail2(a: nat, b: nat): string
    requires a < 256 && b < 256
  {
    [SextetChar(a / 4), SextetChar((a % 4) * 16 + b / 16), SextetChar((b % 16) * 4), '=']
  }

  function Encode(s: string): (t: string)
    requires IsLatin1(s)
    ensures |t| == 4 * ((|s| + 2) / 3)
    decreases |s|
  {
    if |s| == 0 then ""
    else if |s| == 1 then EncodeTail1(Byte(s[0]))
    else if |s| == 2 then EncodeTail2(Byte(s[0]), Byte(s[1]))
    else
      assert (|s| + 2) / 3 == (|s[3..]| + 2) / 3 + 1;
      EncodeGroup(Byte(s[0]), Byte(s[1]), Byte(s[2])) + Encode(s[3..])
  }

  /** `btoa(s)`; `None` is the `InvalidCharacterError` it throws for characters above one byte. */
  function Btoa(s: string): (r: Option<string>)
    ensures r.Some? <==> IsLatin1(s)
  {
    if IsLatin1(s) then Some(Encode(s)) else None
  }

  function ByteChar(v: int): char
    requires 0 <= v < 256
  {
    v as char
  }

  /** Four alphabet characters back to three bytes. */
  function DecodeGroup(g: string): (r: Option<string>)
    requires |g| == 4
  {
    match (SextetValue(g[0]), SextetValue(g[1]), SextetValue(g[2]), SextetValue(g[3]))
    case (Some(v0), Some(v1), Some(v2), Some(v3)) =>
      Some([ByteChar(v0 * 4 + v1 / 16), ByteChar((v1 % 16) * 16 + v2 / 4), ByteChar((v2 % 4) * 64 + v3)])
    case _ => None
  }

  /** The last group, which may carry one or two pad characters. */
  function DecodeLastGroup(g: string): (r: Option<string>)
    requires |g| == 4
  {
    if g[2] == '=' && g[3] == '=' then
      match (SextetValue(g[0]), SextetValue(g[1]))
      case (Some(v0), Some(v1)) => Some([ByteChar(v0 * 4 + v1 / 16)])
      case _ => None
    else if g[3] == '=' then
      match (SextetValue(g[0]), SextetValue(g[1]), SextetValue(g[2]))
      case (Some(v0), Some(v1), Some(v2)) => Some([ByteChar(v0 * 4 + v1 / 16), ByteChar((v1 % 16) * 16 + v2 / 4)])
      case _ => None
    else DecodeGroup(g)
  }

  /** Strict Base64 decoding: whole groups of four, padding only in the last group. */
  function Decode(t: string): (r: Option<string>)
    decreases |t|
  {
    if |t| == 0 then Some("")
    else if |t| < 4 then None
    else if |t| == 4 then DecodeLastGroup(t)
    else
      match (DecodeGroup(t[..4]), Decode(t[4..]))
      case (Some(head), Some(tail)) => Some(head + tail)
      case _ => None
  }

  lemma GroupRoundTrip(a: nat, b: nat, c: nat)
    requires a < 256 && b < 256 && c < 256
    ensures DecodeGroup(EncodeGroup(a, b, c)) == Some([a as char, b as char, c as char])
  {
    var v0, v1, v2, v3 := a / 4, (a % 4) * 16 + b / 16, (b % 16) * 4 + c / 64, c % 64;
    SextetRoundTrip(v0); SextetRoundTrip(v1); SextetRoundTrip(v2); SextetRoundTrip(v3);
    GroupSextets(a, b, c);
  }

  /** The middle sextets of a full group split back into the bits they carry. */
  lemma GroupSextets(a: nat, b: nat, c: nat)
    requires a < 256 && b < 256 && c < 256
    ensures ((a % 4) * 16 + b / 16) / 16 == a % 4 && ((a % 4) * 16 + b / 16) % 16 == b / 16
    ensures ((b % 16) * 4 + c / 64) / 4 == b % 16 && ((b % 16) * 4 + c / 64) % 4 == c / 64
  {
  }

  lemma Tail1RoundTrip(a: nat)
    requires a < 256
    ensures DecodeLastGroup(EncodeTail1(a)) == Some([a as char])
  {
    SextetRoundTrip(a / 4); SextetRoundTrip((a % 4) * 16);
  }

  lemma Tail2RoundTrip(a: nat, b: nat)
    requires a < 256 && b < 256
    ensures DecodeLastGroup(EncodeTail2(a, b)) == Some([a as char, b as char])
  {
    var v0, v1, v2 := a / 4, (a % 4) * 16 + b / 16, (b % 16) * 4;
    SextetRoundTrip(v0); SextetRoundTrip(v1); SextetRoundTrip(v2);
    Tail2Sextets(a, b);
  }

  /** The second and third sextets of a two-byte tail split back into the bits they carry. */
  lemma Tail2Sextets(a: nat, b: nat)
    requires a < 256 && b < 256
    ensures ((a % 4) * 16 + b / 16) / 16 == a % 4 && ((a % 4) * 16 + b / 16) % 16 == b / 16
    ensures ((b % 16) * 4) / 4 == b % 16
  {
  }

  lemma SextetCharNotPad(v: nat)
    requires v < 64
    ensures SextetChar(v) != '='
  {
  }

  /** A full group followed by nothing decodes as a last group would. */
  lemma FullGroupIsLastGroup(a: nat, b: nat, c: nat)
    requires a < 256 && b < 256 && c < 256
    ensures DecodeLastGroup(EncodeGroup(a, b, c)) == DecodeGroup(EncodeGroup(a, b, c))
  {
    SextetCharNotPad((b % 16) * 4 + c / 64);
    SextetCharNotPad(c % 64);
  }

  /** Decoding a full group in front of a decodable rest. */
  lemma DecodeCons(g: string, rest: string, head: string, tail: string)
    requires |g| == 4 && |rest| > 0
    requires DecodeGroup(g) == Some(head) && Decode(rest) == Some(tail)
    ensures Decode(g + rest) == Some(head + tail)
  {
    var t := g + rest;
    assert t[..4] == g && t[4..] == rest;
  }

  lemma EncodeOne(s: string)
    requires IsLatin1(s) && |s| == 1
    ensures Decode(Encode(s)) == Some(s)
  {
    Tail1RoundTrip(Byte(s[0]));
    assert [s[0]] == s;
  }

  lemma EncodeTwo(s: string)
    requires IsLatin1(s) && |s| == 2
    ensures Decode(Encode(s)) == Some(s)
  {
    Tail2RoundTrip(Byte(s[0]), Byte(s[1]));
    assert [s[0], s[1]] == s;
  }

  lemma EncodeThree(s: string)
    requires IsLatin1(s) && |s| == 3
    ensures Decode(Encode(s)) == Some(s)
  {
    var g := EncodeGroup(Byte(s[0]), Byte(s[1]), Byte(s[2]));
    GroupRoundTrip(Byte(s[0]), Byte(s[1]), Byte(s[2]));
    FullGroupIsLastGroup(Byte(s[0]), Byte(s[1]), Byte(s[2]));
    assert Encode(s[3..]) == "";
    assert Encode(s) == g;
    assert [s[0], s[1], s[2]] == s;
  }

  lemma EncodeUnfold(s: string)
    requires IsLatin1(s) && |s| > 3
    ensures Encode(s) == EncodeGroup(Byte(s[0]), Byte(s[1]), Byte(s[2])) + Encode(s[3..])
    ensures |Encode(s[3..])| > 0
  {
  }

  lemma FirstGroup(s: string)
    requires IsLatin1(s) && |s| >= 3
    ensures DecodeGroup(EncodeGroup(Byte(s[0]), Byte(s[1]), Byte(s[2]))) == Some(s[..3])
  {
    GroupRoundTrip(Byte(s[0]), Byte(s[1]), Byte(s[2]));
    assert s[..3] == [s[0], s[1], s[2]];
  }

  lemma EncodeMore(s: string)
    requires IsLatin1(s) && |s| > 3
    requires Decode(Encode(s[3..])) == Some(s[3..])
    ensures Decode(Encode(s)) == Some(s)
  {
    EncodeUnfold(s);
    FirstGroup(s);
    DecodeCons(EncodeGroup(Byte(s[0]), Byte(s[1]), Byte(s[2])), Encode(s[3..]), s[..3], s[3..]);
    assert s[..3] + s[3..] == s;
  }

  /** Decoding what `btoa` produced gives back its input. */
  lemma {:induction false} DecodeEncode(s: string)
    requires IsLatin1(s)
    ensures Decode(Encode(s)) == Some(s)
    decreases |s|
  {
    if |s| == 1 {
      EncodeOne(s);
    } else if |s| == 2 {
      EncodeTwo(s);
    } else if |s| == 3 {
      EncodeThree(s);
    } else if |s| > 3 {
      DecodeEncode(s[3..]);
      EncodeMore(s);
    }
  }
}
