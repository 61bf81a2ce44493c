/** Base64 as `atob` sees it: the "forgiving-base64 decode" of the WHATWG
    Infra Standard over the alphabet of section 4 of RFC 4648, together with
    the padded encoder of that section (what a client uses to build a Basic
    credential), and the round trip that ties the two together. */
module Base64 {
  import opened Common

  /** A six-bit value: one Base64 digit. */
  type sextet = x: int | 0 <= x < 64

  /** The alphabet of section 4 of RFC 4648: `A`-`Z`, `a`-`z`, `0`-`9`,
      `+` and `/`, in order of digit value. */
  predicate IsAlphabetChar(c: char) {
    ('A' <= c <= 'Z') || ('a' <= c <= 'z') || ('0' <= c <= '9') || c == '+' || c == '/'
  }

  predicate AllAlphabet(s: string) {
    forall i :: 0 <= i < |s| ==> IsAlphabetChar(s[i])
  }

  function DigitChar(v: sextet): (c: char)
    ensures IsAlphabetChar(c)
  {
    if v < 26 then ('A' as int + v) as char
    else if v < 52 then ('a' as int + (v - 26)) as char
    else if v < 62 then ('0' as int + (v - 52)) as char
    else if v == 62 then '+'
    else '/'
  }

  /** The digit a character stands for; the inverse of `DigitChar`. */
  function DigitValue(c: char): (v: sextet)
    requires IsAlphabetChar(c)
    ensures DigitChar(v) == c
  {
    if 'A' <= c <= 'Z' then c as int - 'A' as int
    else if 'a' <= c <= 'z' then c as int - 'a' as int + 26
    else if '0' <= c <= '9' then c as int - '0' as int + 52
    else if c == '+' then 62
    else 63
  }

  /** `DigitValue` reads the table backwards. */
  lemma DigitRoundTrip(v: sextet)
    ensures DigitValue(DigitChar(v)) == v
  {
  }

  /** ASCII whitespace as the Infra Standard defines it: TAB, LF, FF, CR, SPACE. */
  predicate IsAsciiWhitespace(c: char) {
    c == '\t' || c == '\n' || c as int == 0x0C || c == '\r' || c == ' '
  }

  function RemoveWhitespace(s: string): (r: string)
    ensures |r| <= |s|
    ensures forall i :: 0 <= i < |r| ==> !IsAsciiWhitespace(r[i])
    ensures forall i :: 0 <= i < |s| && !IsAsciiWhitespace(s[i]) ==> s[i] in r
    ensures (forall i :: 0 <= i < |s| ==> !IsAsciiWhitespace(s[i])) ==> r == s
    decreases |s|
  {
    if |s| == 0 then ""
    else if IsAsciiWhitespace(s[0]) then RemoveWhitespace(s[1..])
    else [s[0]] + RemoveWhitespace(s[1..])
  }

  /** One character on its own: whitespace is dropped, anything else kept. */
  lemma RemoveWhitespaceChar(c: char)
    ensures RemoveWhitespace([c]) == if IsAsciiWhitespace(c) then "" else [c]
  {
    assert [c][1..] == "";
  }

  /** Whitespace removal goes character by character: the result for a
      concatenation is the concatenation of the results, so the kept
      characters stay in their order and none is repeated. */
  lemma {:induction false} RemoveWhitespaceConcat(a: string, b: string)
    ensures RemoveWhitespace(a + b) == RemoveWhitespace(a) + RemoveWhitespace(b)
    decreases |a|
  {
    if |a| == 0 {
      assert a + b == b;
    } else {
      assert (a + b)[0] == a[0];
      assert (a + b)[1..] == a[1..] + b;
      RemoveWhitespaceConcat(a[1..], b);
    }
  }

  /** Removes one or two trailing `=`. */
  function StripPadding(d: string): string {
    if |d| >= 2 && d[|d| - 1] == '=' && d[|d| - 2] == '=' then d[..|d| - 2]
    else if |d| >= 1 && d[|d| - 1] == '=' then d[..|d| - 1]
    else d
  }

  // Octets from a group of digits: a group of 4 digits carries 3 octets; a
  // trailing group of 3 or 2 digits carries 2 or 1, its spare bits dropped.
  function Octet0(a: sextet, b: sextet): byte { a * 4 + b / 16 }
  function Octet1(b: sextet, c: sextet): byte { (b % 16) * 16 + c / 4 }
  function Octet2(c: sextet, d: sextet): byte { (c % 4) * 64 + d }

  /** Decodes a run of alphabet characters. A lone trailing digit carries
      no whole octet and gives nothing; `ForgivingDecode` rejects such a
      length before it gets here. */
  function DecodeDigits(s: string): seq<byte>
    requires AllAlphabet(s)
    decreases |s|
  {
    if |s| <= 1 then []
    else
      var a, b := DigitValue(s[0]), DigitValue(s[1]);
      if |s| == 2 then [Octet0(a, b)]
      else
        var c := DigitValue(s[2]);
        if |s| == 3 then [Octet0(a, b), Octet1(b, c)]
        else [Octet0(a, b), Octet1(b, c), Octet2(c, DigitValue(s[3]))] + DecodeDigits(s[4..])
  }

  /** Every four digits carry three octets; a trailing two or three carry
      one or two. */
  lemma {:induction false} DecodedLength(s: string)
    requires AllAlphabet(s) && |s| % 4 != 1
    ensures var n := |DecodeDigits(s)|;
            4 * n == 3 * |s| - (if |s| % 4 == 0 then 0 else 4 - |s| % 4)
    decreases |s|
  {
    if |s| >= 4 {
      var t := s[4..];
      assert |t| % 4 == |s| % 4;
      assert AllAlphabet(t);
      DecodedLength(t);
      assert |DecodeDigits(s)| == 3 + |DecodeDigits(t)|;
    }
  }

  /** What is left of the input once whitespace and padding are gone. */
  function Digits(data: string): string {
    var d := RemoveWhitespace(data);
    if |d| % 4 == 0 then StripPadding(d) else d
  }

  /** The forgiving-base64 decode; `None` is its failure, on which `atob`
      throws. */
  function ForgivingDecode(data: string): (r: Option<seq<byte>>)
    ensures r.Some? ==> 4 * |r.value| <= 3 * |data|
  {
    var d := Digits(data);
    if |d| % 4 == 1 || !AllAlphabet(d) then None
    else
      DecodedLength(d);
      Some(DecodeDigits(d))
  }

  // Sextets from octets, the encoding direction.
  function Sextet0(x: byte): sextet { x / 4 }
  function Sextet1(x: byte, y: byte): sextet { (x % 4) * 16 + y / 16 }
  function Sextet2(y: byte, z: byte): sextet { (y % 16) * 4 + z / 64 }
  function Sextet3(z: byte): sextet { z % 64 }

  /** The four digits that encode three octets. */
  function Group(x: byte, y: byte, z: byte): (g: string)
    ensures |g| == 4 && AllAlphabet(g)
  {
    [DigitChar(Sextet0(x)), DigitChar(Sextet1(x, y)), DigitChar(Sextet2(y, z)), DigitChar(Sextet3(z))]
  }

  /** The digits of section 4 of RFC 4648 before padding is appended. */
  function EncodeDigits(b: seq<byte>): (s: string)
    ensures AllAlphabet(s)
    ensures |b| > 0 ==> |s| > 0
    decreases |b|
  {
    if |b| == 0 then ""
    else if |b| == 1 then [DigitChar(Sextet0(b[0])), DigitChar(Sextet1(b[0], 0))]
    else if |b| == 2 then
      [DigitChar(Sextet0(b[0])), DigitChar(Sextet1(b[0], b[1])), DigitChar(Sextet2(b[1], 0))]
    else Group(b[0], b[1], b[2]) + EncodeDigits(b[3..])
  }

  /** The padding `Encode` appends for an input of `n` octets. */
  function Padding(n: nat): (p: string)
    ensures |p| <= 2 && forall i :: 0 <= i < |p| ==> p[i] == '='
  {
    if n % 3 == 1 then "==" else if n % 3 == 2 then "=" else ""
  }

  lemma AddGroupOfOctets(x: nat) ensures (x + 3) % 3 == x % 3 {}

  /** The padded encoding of `b` is `k` whole groups of four characters. */
  lemma {:induction false} EncodedGroups(b: seq<byte>) returns (k: nat)
    ensures |EncodeDigits(b)| + |Padding(|b|)| == 4 * k
    decreases |b|
  {
    if |b| == 0 {
      k := 0;
    } else if |b| <= 2 {
      k := 1;
    } else {
      var t := b[3..];
      AddGroupOfOctets(|t|);
      assert Padding(|b|) == Padding(|t|);
      k := EncodedGroups(t);
      k := k + 1;
    }
  }

  /** The padded Base64 encoding of section 4 of RFC 4648. */
  function Encode(b: seq<byte>): string {
    EncodeDigits(b) + Padding(|b|)
  }

  /** Padding completes the last group: an encoding is whole groups of
      four, and its digits alone never leave a lone digit over. */
  lemma EncodingIsWholeGroups(b: seq<byte>)
    ensures |Encode(b)| % 4 == 0
    ensures |EncodeDigits(b)| % 4 != 1
  {
    var k := EncodedGroups(b);
    var d := |EncodeDigits(b)|;
    var p := |Padding(|b|)|;
    assert |Encode(b)| == 4 * k;
    GroupsRemainder(k, 0);
    if p > 0 {
      assert d == 4 * (k - 1) + (4 - p);
      GroupsRemainder(k - 1, 4 - p);
    } else {
      assert d == 4 * k;
    }
  }

  lemma GroupsRemainder(m: nat, r: nat)
    requires r < 4
    ensures (4 * m + r) % 4 == r
  {
  }

  lemma OctetsOfSextets(x: byte, y: byte, z: byte)
    ensures Octet0(Sextet0(x), Sextet1(x, y)) == x
    ensures Octet1(Sextet1(x, y), Sextet2(y, z)) == y
    ensures Octet2(Sextet2(y, z), Sextet3(z)) == z
  {
  }

  /** Four digits in front of the rest decode to their three octets. */
  lemma DecodeFour(a: sextet, b: sextet, c: sextet, d: sextet, t: string)
    requires AllAlphabet(t)
    ensures DecodeDigits([DigitChar(a), DigitChar(b), DigitChar(c), DigitChar(d)] + t)
              == [Octet0(a, b), Octet1(b, c), Octet2(c, d)] + DecodeDigits(t)
  {
    var s := [DigitChar(a), DigitChar(b), DigitChar(c), DigitChar(d)] + t;
    DigitRoundTrip(a);
    DigitRoundTrip(b);
    DigitRoundTrip(c);
    DigitRoundTrip(d);
    assert s[4..] == t;
  }

  /** A full group decodes to the three octets it encodes. */
  lemma DecodeGroup(x: byte, y: byte, z: byte, t: string)
    requires AllAlphabet(t)
    ensures DecodeDigits(Group(x, y, z) + t) == [x, y, z] + DecodeDigits(t)
  {
    DecodeFour(Sextet0(x), Sextet1(x, y), Sextet2(y, z), Sextet3(z), t);
    OctetsOfSextets(x, y, z);
  }

  /** A final group of two digits decodes to the one octet it encodes. */
  lemma DecodeTail1(x: byte)
    ensures DecodeDigits([DigitChar(Sextet0(x)), DigitChar(Sextet1(x, 0))]) == [x]
  {
    DigitRoundTrip(Sextet0(x));
    DigitRoundTrip(Sextet1(x, 0));
    OctetsOfSextets(x, 0, 0);
  }

  /** A final group of three digits decodes to the two octets it encodes. */
  lemma DecodeTail2(x: byte, y: byte)
    ensures DecodeDigits([DigitChar(Sextet0(x)), DigitChar(Sextet1(x, y)), DigitChar(Sextet2(y, 0))]) == [x, y]
  {
    DigitRoundTrip(Sextet0(x));
    DigitRoundTrip(Sextet1(x, y));
    DigitRoundTrip(Sextet2(y, 0));
    OctetsOfSextets(x, y, 0);
  }

  /** Decoding the digits of an encoding gives back the octets. */
  lemma {:induction false} DecodeEncodeDigits(b: seq<byte>)
    ensures DecodeDigits(EncodeDigits(b)) == b
    decreases |b|
  {
    if |b| == 1 {
      DecodeTail1(b[0]);
    } else if |b| == 2 {
      DecodeTail2(b[0], b[1]);
    } else if |b| >= 3 {
      var t := EncodeDigits(b[3..]);
      calc {
        DecodeDigits(EncodeDigits(b));
        DecodeDigits(Group(b[0], b[1], b[2]) + t);
        { DecodeGroup(b[0], b[1], b[2], t); }
        [b[0], b[1], b[2]] + DecodeDigits(t);
        { DecodeEncodeDigits(b[3..]); }
        [b[0], b[1], b[2]] + b[3..];
        b;
      }
    }
  }

  /** A character that is neither whitespace, nor padding, nor in the
      alphabet makes `atob` throw. */
  lemma DecodeRejectsForeignChar(data: string, i: int)
    requires 0 <= i < |data|
    requires !IsAsciiWhitespace(data[i]) && !IsAlphabetChar(data[i]) && data[i] != '='
    ensures ForgivingDecode(data) == None
  {
    var d := RemoveWhitespace(data);
    assert data[i] in d;
    var j :| 0 <= j < |d| && d[j] == data[i];
    var e := Digits(data);
    if |e| % 4 != 1 {
      if |d| % 4 == 0 && |d| >= 2 && d[|d| - 1] == '=' && d[|d| - 2] == '=' {
        assert e[j] == d[j];
      } else if |d| % 4 == 0 && |d| >= 1 && d[|d| - 1] == '=' {
        assert e[j] == d[j];
      } else {
        assert e[j] == d[j];
      }
      assert !AllAlphabet(e);
    }
  }

  /** An encoding holds no whitespace, so `atob` sees it unchanged. */
  lemma EncodingHasNoWhitespace(b: seq<byte>)
    ensures RemoveWhitespace(Encode(b)) == Encode(b)
  {
    var e := Encode(b);
    var s := EncodeDigits(b);
    assert e == s + Padding(|b|);
    forall i | 0 <= i < |e| ensures !IsAsciiWhitespace(e[i]) {
      if i < |s| {
        assert e[i] == s[i] && IsAlphabetChar(s[i]);
      } else {
        assert e[i] == Padding(|b|)[i - |s|];
      }
    }
  }

  /** Stripping the padding of an encoding leaves exactly its digits. */
  lemma StripEncodingPadding(b: seq<byte>)
    ensures StripPadding(Encode(b)) == EncodeDigits(b)
  {
    var s := EncodeDigits(b);
    var p := Padding(|b|);
    var e := Encode(b);
    assert e == s + p;
    if |p| == 0 {
      assert e == s;
      if |s| > 0 {
        assert IsAlphabetChar(s[|s| - 1]);
      }
    } else if |p| == 1 {
      assert |s| > 0 && IsAlphabetChar(s[|s| - 1]) && e[|e| - 2] == s[|s| - 1];
      assert e[..|e| - 1] == s;
    } else {
      assert e[..|e| - 2] == s;
    }
  }

  /** `atob` accepts every padded encoding and returns the encoded octets. */
  lemma DecodeEncode(b: seq<byte>)
    ensures ForgivingDecode(Encode(b)) == Some(b)
  {
    EncodingIsWholeGroups(b);
    EncodingHasNoWhitespace(b);
    StripEncodingPadding(b);
    var d := EncodeDigits(b);
    assert Digits(Encode(b)) == d;
    DecodeEncodeDigits(b);
  }
}
