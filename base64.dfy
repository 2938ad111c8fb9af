/** `btoa` and `atob`: the base64 encoding of RFC 4648 (section 4, standard
    alphabet, '=' padding) over strings whose characters are all below 256.
    The profile store keeps passwords in this encoding. */
module Base64 {
  import opened Common

  /** btoa accepts only strings whose characters fit in one byte. */
  predicate IsByteString(s: string) {
    forall i | 0 <= i < |s| :: s[i] as int < 256
  }

  /** The base64 alphabet: A-Z, a-z, 0-9, '+', '/'. */
  function SextetChar(v: nat): (c: char)
    requires v < 64
    ensures c != '='
  {
    if v < 26 then ('A' as int + v) as char
    else if v < 52 then ('a' as int + (v - 26)) as char
    else if v < 62 then ('0' as int + (v - 52)) as char
    else if v == 62 then '+'
    else '/'
  }

  /** The position of a character in the alphabet, if it belongs to it. */
  function SextetValue(c: char): (r: Option<nat>)
    ensures r.Some? ==> r.value < 64
  {
    if 'A' <= c <= 'Z' then Some(c as int - 'A' as int)
    else if 'a' <= c <= 'z' then Some(c as int - 'a' as int + 26)
    else if '0' <= c <= '9' then Some(c as int - '0' as int + 52)
    else if c == '+' then Some(62)
    else if c == '/' then Some(63)
    else None
  }

  lemma SextetRoundTrip(v: nat)
    requires v < 64
    ensures SextetValue(SextetChar(v)) == Some(v)
  {
  }

  /** Three bytes as four alphabet characters. */
  function Quad(a: int, b: int, c: int): (q: string)
    requires 0 <= a < 256 && 0 <= b < 256 && 0 <= c < 256
    ensures |q| == 4
  {
    [SextetChar(a / 4), SextetChar((a % 4) * 16 + b / 16), SextetChar((b % 16) * 4 + c / 64), SextetChar(c % 64)]
  }

  /** btoa: three bytes become four alphabet characters; a final group of one or
      two bytes is padded with '='. */
  function Encode(s: string): (r: string)
    requires IsByteString(s)
    ensures |r| == 4 * ((|s| + 2) / 3)
  {
    if |s| == 0 then ""
    else if |s| == 1 then
      var a := s[0] as int;
      [SextetChar(a / 4), SextetChar((a % 4) * 16), '=', '=']
    else if |s| == 2 then
      var a, b := s[0] as int, s[1] as int;
      [SextetChar(a / 4), SextetChar((a % 4) * 16 + b / 16), SextetChar((b % 16) * 4), '=']
    else
      GroupsStep(|s|);
      Quad(s[0] as int, s[1] as int, s[2] as int) + Encode(s[3..])
  }

  /** A full group of three bytes is one group of output. */
  lemma GroupsStep(n: nat)
    requires n >= 3
    ensures (n + 2) / 3 == (n - 3 + 2) / 3 + 1
  {
  }

  /** One group of four characters: three bytes, or one or two before '='
      padding. None when a character is outside the alphabet. */
  function DecodeGroup(c0: char, c1: char, c2: char, c3: char): (r: Option<string>)
    ensures r.Some? ==> 1 <= |r.value| <= 3
  {
    var v0, v1, v2, v3 := SextetValue(c0), SextetValue(c1), SextetValue(c2), SextetValue(c3);
    if v0.None? || v1.None? then None
    else
      var a := v0.value * 4 + v1.value / 16;
      if c2 == '=' && c3 == '=' then Some([a as char])
      else if v2.None? then None
      else
        var b := (v1.value % 16) * 16 + v2.value / 4;
        if c3 == '=' then Some([a as char, b as char])
        else if v3.None? then None
        else Some([a as char, b as char, ((v2.value % 4) * 64 + v3.value) as char])
  }

  /** atob on padded input, group by group. Input that is not a multiple of
      four characters long, that holds a character outside the alphabet, or
      that is padded before its last group, is rejected. */
  function Decode(t: string): Option<string> {
    if |t| == 0 then Some("")
    else if |t| < 4 then None
    else
      match DecodeGroup(t[0], t[1], t[2], t[3])
      case None => None
      case Some(g) =>
        if |t| == 4 then Some(g)
        else if |g| < 3 then None
        else
          match Decode(t[4..])
          case None => None
          case Some(rest) => Some(g + rest)
  }

  /** Splitting bytes into sextets and joining them again. */
  lemma GroupArithmetic(a: int, b: int, c: int)
    requires 0 <= a < 256 && 0 <= b < 256 && 0 <= c < 256
    ensures (a / 4) * 4 + ((a % 4) * 16 + b / 16) / 16 == a
    ensures (((a % 4) * 16 + b / 16) % 16) * 16 + ((b % 16) * 4 + c / 64) / 4 == b
    ensures (((b % 16) * 4 + c / 64) % 4) * 64 + c % 64 == c
  {
  }

  lemma DecodeGroupOne(a: int)
    requires 0 <= a < 256
    ensures DecodeGroup(SextetChar(a / 4), SextetChar((a % 4) * 16), '=', '=') == Some([a as char])
  {
    SextetRoundTrip(a / 4);
    SextetRoundTrip((a % 4) * 16);
    GroupArithmetic(a, 0, 0);
  }

  lemma DecodeGroupTwo(a: int, b: int)
    requires 0 <= a < 256 && 0 <= b < 256
    ensures DecodeGroup(SextetChar(a / 4), SextetChar((a % 4) * 16 + b / 16), SextetChar((b % 16) * 4), '=')
         == Some([a as char, b as char])
  {
    SextetRoundTrip(a / 4);
    SextetRoundTrip((a % 4) * 16 + b / 16);
    SextetRoundTrip((b % 16) * 4);
    GroupArithmetic(a, b, 0);
  }

  lemma DecodeGroupThree(a: int, b: int, c: int)
    requires 0 <= a < 256 && 0 <= b < 256 && 0 <= c < 256
    ensures var q := Quad(a, b, c); DecodeGroup(q[0], q[1], q[2], q[3]) == Some([a as char, b as char, c as char])
  {
    SextetRoundTrip(a / 4);
    SextetRoundTrip((a % 4) * 16 + b / 16);
    SextetRoundTrip((b % 16) * 4 + c / 64);
    SextetRoundTrip(c % 64);
    GroupArithmetic(a, b, c);
  }

  /** A final group of one byte. */
  lemma DecodeEncodeOne(s: string)
    requires IsByteString(s) && |s| == 1
    ensures Decode(Encode(s)) == Some(s)
  {
    var a := s[0] as int;
    var t := Encode(s);
    assert t == [SextetChar(a / 4), SextetChar((a % 4) * 16), '=', '='];
    assert DecodeGroup(t[0], t[1], t[2], t[3]) == Some([a as char]) by {
      DecodeGroupOne(a);
    }
    assert [a as char] == s;
  }

  /** A final group of two bytes. */
  lemma DecodeEncodeTwo(s: string)
    requires IsByteString(s) && |s| == 2
    ensures Decode(Encode(s)) == Some(s)
  {
    var a, b := s[0] as int, s[1] as int;
    var t := Encode(s);
    assert t == [SextetChar(a / 4), SextetChar((a % 4) * 16 + b / 16), SextetChar((b % 16) * 4), '='];
    assert DecodeGroup(t[0], t[1], t[2], t[3]) == Some([a as char, b as char]) by {
      DecodeGroupTwo(a, b);
    }
    assert [a as char, b as char] == s;
  }

  /** Decoding goes group by group: a group of three bytes, then the rest. */
  lemma DecodeAfterGroup(q: string, rest: string, g: string, r: string)
    requires |q| == 4 && DecodeGroup(q[0], q[1], q[2], q[3]) == Some(g) && |g| == 3
    requires Decode(rest) == Some(r)
    ensures Decode(q + rest) == Some(g + r)
  {
    var t := q + rest;
    assert t[..4] == q && t[4..] == rest;
    if rest == [] {
      assert r == [] && g + r == g;
    }
  }

  /** btoa emits the first full group, then encodes the rest. */
  lemma EncodeStep(s: string)
    requires IsByteString(s) && |s| >= 3
    ensures IsByteString(s[3..])
    ensures Encode(s) == Quad(s[0] as int, s[1] as int, s[2] as int) + Encode(s[3..])
  {
  }

  lemma SplitThree(s: string)
    requires |s| >= 3
    ensures [s[0] as int as char, s[1] as int as char, s[2] as int as char] + s[3..] == s
  {
  }

  /** A full group in front of input whose round trip holds. */
  lemma DecodeEncodeStep(s: string)
    requires IsByteString(s) && |s| >= 3
    requires IsByteString(s[3..]) && Decode(Encode(s[3..])) == Some(s[3..])
    ensures Decode(Encode(s)) == Some(s)
  {
    var a, b, c := s[0] as int, s[1] as int, s[2] as int;
    var q := Quad(a, b, c);
    var g := [a as char, b as char, c as char];
    EncodeStep(s);
    DecodeGroupThree(a, b, c);
    DecodeAfterGroup(q, Encode(s[3..]), g, s[3..]);
    SplitThree(s);
  }

  /** atob(btoa(s)) == s. */
  lemma {:induction false} DecodeEncode(s: string)
    requires IsByteString(s)
    ensures Decode(Encode(s)) == Some(s)
  {
    if |s| == 1 {
      DecodeEncodeOne(s);
    } else if |s| == 2 {
      DecodeEncodeTwo(s);
    } else if |s| >= 3 {
      assert IsByteString(s[3..]);
      DecodeEncode(s[3..]);
      DecodeEncodeStep(s);
    }
  }
}
