/** base64url without padding, as the parts of a login token carry it (RFC 7515, section 2), and
    the re-padding that lets a decoder for padded text (RFC 4648, section 5) read it. */
module Base64Url {
  import opened Common

  type byte = x: int | 0 <= x < 256
  type digit = x: int | 0 <= x < 64

  // ---------------------------------------------------------------- the alphabet

  function CharOf(d: digit): char {
    if d < 26 then ('A' as int + d) as char
    else if d < 52 then ('a' as int + d - 26) as char
    else if d < 62 then ('0' as int + d - 52) as char
    else if d == 62 then '-' else '_'
  }

  /** The decoder maps '-' and '_' to '+' and '/' first, and takes those as well. */
  function ValueOf(c: char): Option<digit> {
    if 'A' <= c <= 'Z' then Some(c as int - 'A' as int)
    else if 'a' <= c <= 'z' then Some(c as int - 'a' as int + 26)
    else if '0' <= c <= '9' then Some(c as int - '0' as int + 52)
    else if c == '-' || c == '+' then Some(62)
    else if c == '_' || c == '/' then Some(63)
    else None
  }

  lemma ValueOfChar(d: digit)
    ensures ValueOf(CharOf(d)) == Some(d) && CharOf(d) != '='
  {
  }

  // ---------------------------------------------------------------- encoding

  function Encode1(a: byte): string {
    [CharOf(a / 4), CharOf(a % 4 * 16)]
  }

  function Encode2(a: byte, b: byte): string {
    [CharOf(a / 4), CharOf(a % 4 * 16 + b / 16), CharOf(b % 16 * 4)]
  }

  function Encode3(a: byte, b: byte, c: byte): string {
    [CharOf(a / 4), CharOf(a % 4 * 16 + b / 16), CharOf(b % 16 * 4 + c / 64), CharOf(c % 64)]
  }

  function Encode(bytes: seq<byte>): string {
    if bytes == [] then ""
    else if |bytes| == 1 then Encode1(bytes[0]) + "=="
    else if |bytes| == 2 then Encode2(bytes[0], bytes[1]) + "="
    else Encode3(bytes[0], bytes[1], bytes[2]) + Encode(bytes[3..])
  }

  /** Drop all padding. */
  function Unpadded(text: string): string {
    if text != "" && text[|text| - 1] == '=' then Unpadded(text[..|text| - 1]) else text
  }

  function Padding(n: nat): string {
    if n == 0 then "" else Padding(n - 1) + "="
  }

  /** `-n % 4`, which in Python is not negative. */
  function PadCount(n: nat): (p: nat)
    ensures p == if n % 4 == 0 then 0 else 4 - n % 4
    ensures (n + p) % 4 == 0
  {
    (-(n as int)) % 4
  }

  function Repadded(text: string): string {
    text + Padding(PadCount(|text|))
  }

  // ---------------------------------------------------------------- decoding


  /** The strict decoder: groups of four, padding of at most two characters and only in the
      last group. Bits of the last digit that no byte needs are ignored. */
  function Decode(text: string): Option<seq<byte>> {
    if text == "" then Some([])
    else if |text| < 4 then None
    else
      var a, b, c, d := ValueOf(text[0]), ValueOf(text[1]), ValueOf(text[2]), ValueOf(text[3]);
      if a.None? || b.None? then None
      else if |text| == 4 && text[2] == '=' && text[3] == '=' then Some(OneByte(a.value, b.value))
      else if c.None? then None
      else if |text| == 4 && text[3] == '=' then Some(TwoBytes(a.value, b.value, c.value))
      else if d.None? then None
      else
        var rest := Decode(text[4..]);
        if rest.None? then None else Some(ThreeBytes(a.value, b.value, c.value, d.value) + rest.value)
  }

  function OneByte(a: digit, b: digit): seq<byte> {
    [a * 4 + b / 16]
  }

  function TwoBytes(a: digit, b: digit, c: digit): seq<byte> {
    [a * 4 + b / 16, b % 16 * 16 + c / 4]
  }

  function ThreeBytes(a: digit, b: digit, c: digit, d: digit): seq<byte> {
    [a * 4 + b / 16, b % 16 * 16 + c / 4, c % 4 * 64 + d]
  }

  // ---------------------------------------------------------------- round trip

  lemma DecodeOf1(a: byte)
    ensures Decode(Encode1(a) + "==") == Some([a])
  {
    ValueOfChar(a / 4);
    ValueOfChar(a % 4 * 16);
  }

  lemma DecodeOf2(a: byte, b: byte)
    ensures Decode(Encode2(a, b) + "=") == Some([a, b])
  {
    ValueOfChar(a / 4);
    ValueOfChar(a % 4 * 16 + b / 16);
    ValueOfChar(b % 16 * 4);
    TwoBytesBack(a, b);
    var text := Encode2(a, b) + "=";
    assert |text| == 4 && text[2] != '=' && text[3] == '=';
  }

  lemma TwoBytesBack(a: byte, b: byte)
    ensures TwoBytes(a / 4, a % 4 * 16 + b / 16, b % 16 * 4) == [a, b]
  {
  }

  lemma ThreeBytesBack(a: byte, b: byte, c: byte)
    ensures ThreeBytes(a / 4, a % 4 * 16 + b / 16, b % 16 * 4 + c / 64, c % 64) == [a, b, c]
  {
  }

  /** A full group of digits, whatever follows. */
  lemma DecodeOfGroup(p: digit, q: digit, r: digit, t: digit, rest: string)
    ensures Decode([CharOf(p), CharOf(q), CharOf(r), CharOf(t)] + rest)
            == if Decode(rest).None? then None else Some(ThreeBytes(p, q, r, t) + Decode(rest).value)
  {
    var text := [CharOf(p), CharOf(q), CharOf(r), CharOf(t)] + rest;
    ValueOfChar(p);
    ValueOfChar(q);
    ValueOfChar(r);
    ValueOfChar(t);
    assert text[4..] == rest;
  }

  lemma DecodeOf3(a: byte, b: byte, c: byte, rest: string)
    ensures Decode(Encode3(a, b, c) + rest)
            == if Decode(rest).None? then None else Some([a, b, c] + Decode(rest).value)
  {
    DecodeOfGroup(a / 4, a % 4 * 16 + b / 16, b % 16 * 4 + c / 64, c % 64, rest);
    ThreeBytesBack(a, b, c);
  }

  lemma {:induction false} DecodeOfEncode(bytes: seq<byte>)
    ensures Decode(Encode(bytes)) == Some(bytes)
    decreases |bytes|
  {
    if |bytes| == 1 {
      DecodeOf1(bytes[0]);
      assert bytes == [bytes[0]];
    } else if |bytes| == 2 {
      DecodeOf2(bytes[0], bytes[1]);
      assert bytes == [bytes[0], bytes[1]];
    } else if |bytes| > 2 {
      DecodeOfEncode(bytes[3..]);
      DecodeOf3(bytes[0], bytes[1], bytes[2], Encode(bytes[3..]));
      ThreeAndRest(bytes);
    }
  }

  lemma ThreeAndRest(bytes: seq<byte>)
    requires |bytes| > 2
    ensures [bytes[0], bytes[1], bytes[2]] + bytes[3..] == bytes
  {
  }

  /** The digits of an encoding, never 1 modulo 4 of them. */
  function Digits(bytes: seq<byte>): (n: nat)
    ensures n % 4 != 1
  {
    if |bytes| == 0 then 0 else if |bytes| == 1 then 2 else if |bytes| == 2 then 3 else 4 + Digits(bytes[3..])
  }

  predicate NoPadding(text: string) {
    forall i :: 0 <= i < |text| ==> text[i] != '='
  }

  lemma GroupsHaveNoPadding(a: byte, b: byte, c: byte)
    ensures NoPadding(Encode1(a)) && NoPadding(Encode2(a, b)) && NoPadding(Encode3(a, b, c))
  {
  }

  lemma GroupThenDigits(group: string, rest: string, n: nat)
    requires |group| == 4 && NoPadding(group) && n <= |rest| && NoPadding(rest[..n])
    requires |rest| == n + PadCount(n) && forall i :: n <= i < |rest| ==> rest[i] == '='
    ensures |group + rest| == n + 4 + PadCount(n + 4) && NoPadding((group + rest)[..n + 4])
    ensures forall i :: n + 4 <= i < |group + rest| ==> (group + rest)[i] == '='
  {
    assert (group + rest)[..n + 4] == group + rest[..n];
  }

  /** An encoding is its digits and then the padding to a multiple of four. */
  lemma {:induction false} EncodeShape(bytes: seq<byte>)
    ensures var n := Digits(bytes);
            && |Encode(bytes)| == n + PadCount(n)
            && NoPadding(Encode(bytes)[..n])
            && (forall i :: n <= i < |Encode(bytes)| ==> Encode(bytes)[i] == '=')
    decreases |bytes|
  {
    if |bytes| == 1 {
      GroupsHaveNoPadding(bytes[0], 0, 0);
      assert Encode(bytes)[..2] == Encode1(bytes[0]);
    } else if |bytes| == 2 {
      GroupsHaveNoPadding(bytes[0], bytes[1], 0);
      assert Encode(bytes)[..3] == Encode2(bytes[0], bytes[1]);
    } else if |bytes| > 2 {
      EncodeShape(bytes[3..]);
      GroupsHaveNoPadding(bytes[0], bytes[1], bytes[2]);
      GroupThenDigits(Encode3(bytes[0], bytes[1], bytes[2]), Encode(bytes[3..]), Digits(bytes[3..]));
    }
  }

  lemma {:induction false} UnpaddedShape(text: string, n: nat)
    requires n <= |text| && (n > 0 ==> text[n - 1] != '=') && forall i :: n <= i < |text| ==> text[i] == '='
    ensures Unpadded(text) == text[..n]
    decreases |text|
  {
    if n == |text| {
      assert text[..n] == text;
    } else {
      UnpaddedShape(text[..|text| - 1], n);
      assert text[..|text| - 1][..n] == text[..n];
    }
  }

  lemma {:induction false} PaddingShape(n: nat)
    ensures |Padding(n)| == n && forall i :: 0 <= i < n ==> Padding(n)[i] == '='
  {
    if n > 0 {
      PaddingShape(n - 1);
    }
  }

  lemma {:induction false} PaddingIs(text: string, n: nat)
    requires |text| == n && forall i :: 0 <= i < n ==> text[i] == '='
    ensures text == Padding(n)
  {
    PaddingShape(n);
  }

  /** Re-padding gives back exactly the padding that was dropped. */
  lemma RepaddingRestores(bytes: seq<byte>)
    ensures Repadded(Unpadded(Encode(bytes))) == Encode(bytes)
  {
    var text, n := Encode(bytes), Digits(bytes);
    EncodeShape(bytes);
    assert n > 0 ==> text[..n][n - 1] != '=';
    UnpaddedShape(text, n);
    PaddingIs(text[n..], PadCount(n));
    assert text == text[..n] + text[n..];
  }

  /** For every byte sequence: encode, drop the padding, re-pad and decode. */
  lemma UnpaddedRoundTrip(bytes: seq<byte>)
    ensures Decode(Repadded(Unpadded(Encode(bytes)))) == Some(bytes)
  {
    RepaddingRestores(bytes);
    DecodeOfEncode(bytes);
  }

  // ---------------------------------------------------------------- what is accepted

  /** Digits, then at most two padding characters, in all a multiple of four. */
  predicate WellFormed(text: string, n: nat) {
    && n <= |text| <= n + 2 && |text| % 4 == 0
    && (forall i :: 0 <= i < n ==> ValueOf(text[i]).Some?)
    && (forall i :: n <= i < |text| ==> text[i] == '=')
  }

  lemma GroupExtends(text: string, n: nat)
    requires |text| >= 4 && (forall i :: 0 <= i < 4 ==> ValueOf(text[i]).Some?) && WellFormed(text[4..], n)
    ensures WellFormed(text, n + 4)
  {
    assert forall i :: 4 <= i < |text| ==> text[i] == text[4..][i - 4];
  }

  lemma {:induction false} DecodesMeansWellFormed(text: string) returns (n: nat)
    requires Decode(text).Some?
    ensures WellFormed(text, n)
    decreases |text|
  {
    if text == "" {
      n := 0;
    } else if |text| == 4 && text[2] == '=' && text[3] == '=' {
      n := 2;
    } else if |text| == 4 && text[3] == '=' {
      n := 3;
    } else {
      n := DecodesMeansWellFormed(text[4..]);
      GroupExtends(text, n);
      n := n + 4;
    }
  }

  lemma {:induction false} WellFormedDecodes(text: string, n: nat)
    requires WellFormed(text, n)
    ensures Decode(text).Some?
    decreases |text|
  {
    if n >= 4 {
      assert WellFormed(text[4..], n - 4);
      WellFormedDecodes(text[4..], n - 4);
    }
  }

  lemma RepaddedShape(text: string)
    ensures |Repadded(text)| == |text| + PadCount(|text|) && |Repadded(text)| % 4 == 0
    ensures forall i :: 0 <= i < |text| ==> Repadded(text)[i] == text[i]
    ensures forall i :: |text| <= i < |Repadded(text)| ==> Repadded(text)[i] == '='
  {
    PaddingShape(PadCount(|text|));
  }

  /** A text of length 1 modulo 4 is always rejected, whatever it contains. */
  lemma LengthOneModFourIsRejected(text: string)
    requires |text| % 4 == 1
    ensures Decode(Repadded(text)).None?
  {
    RepaddedShape(text);
    assert Repadded(text)[|text|] == '=' && ValueOf('=').None?;
    if Decode(Repadded(text)).Some? {
      var n := DecodesMeansWellFormed(Repadded(text));
    }
  }

  /** Any other text of digits is accepted. */
  lemma DigitsAreAcceptedExactlyWhen(text: string)
    requires forall i :: 0 <= i < |text| ==> ValueOf(text[i]).Some?
    ensures Decode(Repadded(text)).Some? <==> |text| % 4 != 1
  {
    if |text| % 4 == 1 {
      LengthOneModFourIsRejected(text);
    } else {
      RepaddedShape(text);
      WellFormedDecodes(Repadded(text), |text|);
    }
  }
}
