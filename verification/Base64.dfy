/** Base64 as section 4 of RFC 4648 defines it, the way the guest encodes archive chunks and the host
    decodes them with validation on. */
module Base64 {
  import opened Framing
  import opened Wrappers

  type Sextet = i: int | 0 <= i < 64

  /** Table 1 of section 4. */
  function Symbol(i: Sextet): (c: char) {
    if i < 26 then 'A' + i as char
    else if i < 52 then 'a' + (i - 26) as char
    else if i < 62 then '0' + (i - 52) as char
    else if i == 62 then '+' else '/'
  }

  function Value(c: char): Option<Sextet> {
    if 'A' <= c <= 'Z' then Some((c - 'A') as int)
    else if 'a' <= c <= 'z' then Some((c - 'a') as int + 26)
    else if '0' <= c <= '9' then Some((c - '0') as int + 52)
    else if c == '+' then Some(62)
    else if c == '/' then Some(63)
    else None
  }

  // The four sextets of three bytes, and the three bytes of four sextets.
  function Sextet0(x: Byte): Sextet { x / 4 }
  function Sextet1(x: Byte, y: Byte): Sextet { x % 4 * 16 + y / 16 }
  function Sextet2(y: Byte, z: Byte): Sextet { y % 16 * 4 + z / 64 }
  function Sextet3(z: Byte): Sextet { z % 64 }
  function Byte0(a: Sextet, b: Sextet): Byte { a * 4 + b / 16 }
  function Byte1(b: Sextet, c: Sextet): Byte { b % 16 * 16 + c / 4 }
  function Byte2(c: Sextet, d: Sextet): Byte { c % 4 * 64 + d }

  function Encode(data: seq<Byte>): string {
    if data == [] then []
    else if |data| == 1 then
      [Symbol(Sextet0(data[0])), Symbol(Sextet1(data[0], 0)), '=', '=']
    else if |data| == 2 then
      [Symbol(Sextet0(data[0])), Symbol(Sextet1(data[0], data[1])), Symbol(Sextet2(data[1], 0)), '=']
    else
      [Symbol(Sextet0(data[0])), Symbol(Sextet1(data[0], data[1])), Symbol(Sextet2(data[1], data[2])),
       Symbol(Sextet3(data[2]))] + Encode(data[3..])
  }

  /** Padding may only close the text. The bits a padded group discards are not examined. */
  function Decode(text: string): Option<seq<Byte>> {
    if text == [] then Some([])
    else if |text| < 4 then None
    else
      match (Value(text[0]), Value(text[1]), Value(text[2]), Value(text[3]))
      case (Some(a), Some(b), Some(c), Some(d)) => (
        match Decode(text[4..])
        case None => None
        case Some(rest) => Some([Byte0(a, b), Byte1(b, c), Byte2(c, d)] + rest)
      )
      case (Some(a), Some(b), Some(c), None) =>
        if |text| == 4 && text[3] == '=' then Some([Byte0(a, b), Byte1(b, c)]) else None
      case (Some(a), Some(b), None, None) =>
        if |text| == 4 && text[2] == '=' && text[3] == '=' then Some([Byte0(a, b)]) else None
      case _ => None
  }

  /** A character of the alphabet, or the padding character. */
  predicate InAlphabet(c: char) {
    Value(c).Some? || c == '='
  }

  lemma SymbolValue(i: Sextet)
    ensures Value(Symbol(i)) == Some(i)
  {}

  lemma Regroup(x: Byte, y: Byte, z: Byte)
    ensures Byte0(Sextet0(x), Sextet1(x, y)) == x
    ensures Byte1(Sextet1(x, y), Sextet2(y, z)) == y
    ensures Byte2(Sextet2(y, z), Sextet3(z)) == z
  {}

  // One lemma for each shape of the last group, over any sextets.

  lemma FullGroup(a: Sextet, b: Sextet, c: Sextet, d: Sextet, rest: string)
    requires Decode(rest).Some?
    ensures Decode([Symbol(a), Symbol(b), Symbol(c), Symbol(d)] + rest)
         == Some([Byte0(a, b), Byte1(b, c), Byte2(c, d)] + Decode(rest).value)
  {
    SymbolValue(a);
    SymbolValue(b);
    SymbolValue(c);
    SymbolValue(d);
    assert ([Symbol(a), Symbol(b), Symbol(c), Symbol(d)] + rest)[4..] == rest;
  }

  lemma GroupOfTwo(a: Sextet, b: Sextet, c: Sextet)
    ensures Decode([Symbol(a), Symbol(b), Symbol(c), '=']) == Some([Byte0(a, b), Byte1(b, c)])
  {
    SymbolValue(a);
    SymbolValue(b);
    SymbolValue(c);
  }

  lemma GroupOfOne(a: Sextet, b: Sextet)
    ensures Decode([Symbol(a), Symbol(b), '=', '=']) == Some([Byte0(a, b)])
  {
    SymbolValue(a);
    SymbolValue(b);
  }

  lemma RoundTripOne(x: Byte)
    ensures Decode(Encode([x])) == Some([x])
  {
    var a, b := Sextet0(x), Sextet1(x, 0);
    GroupOfOne(a, b);
    Regroup(x, 0, 0);
  }

  lemma RoundTripTwo(x: Byte, y: Byte)
    ensures Decode(Encode([x, y])) == Some([x, y])
  {
    var a, b, c := Sextet0(x), Sextet1(x, y), Sextet2(y, 0);
    GroupOfTwo(a, b, c);
    Regroup(x, y, 0);
  }

  lemma RoundTripGroup(x: Byte, y: Byte, z: Byte, rest: seq<Byte>)
    requires Decode(Encode(rest)) == Some(rest)
    ensures Decode(Encode([x, y, z] + rest)) == Some([x, y, z] + rest)
  {
    var a, b, c, d := Sextet0(x), Sextet1(x, y), Sextet2(y, z), Sextet3(z);
    assert ([x, y, z] + rest)[3..] == rest;
    FullGroup(a, b, c, d, Encode(rest));
    Regroup(x, y, z);
  }

  lemma RoundTripShort(data: seq<Byte>)
    requires 1 <= |data| <= 2
    ensures Decode(Encode(data)) == Some(data)
  {
    if |data| == 1 {
      RoundTripOne(data[0]);
      assert data == [data[0]];
    } else {
      RoundTripTwo(data[0], data[1]);
      assert data == [data[0], data[1]];
    }
  }

  lemma RoundTripLong(data: seq<Byte>)
    requires |data| >= 3 && Decode(Encode(data[3..])) == Some(data[3..])
    ensures Decode(Encode(data)) == Some(data)
  {
    Front3(data);
    RoundTripGroup(data[0], data[1], data[2], data[3..]);
  }

  lemma Front3(data: seq<Byte>)
    requires |data| >= 3
    ensures [data[0], data[1], data[2]] + data[3..] == data
  {}

  /** Whatever the guest encodes, the host decodes to the same bytes. */
  lemma {:induction false} RoundTrip(data: seq<Byte>)
    ensures Decode(Encode(data)) == Some(data)
    decreases |data|
  {
    if |data| >= 3 {
      RoundTrip(data[3..]);
      RoundTripLong(data);
    } else if |data| >= 1 {
      RoundTripShort(data);
    }
  }

  /** Four characters for every three bytes, rounded up, all from the alphabet. */
  lemma {:induction false} EncodedShape(data: seq<Byte>)
    ensures |Encode(data)| == (|data| + 2) / 3 * 4
    ensures forall c :: c in Encode(data) ==> InAlphabet(c)
    decreases |data|
  {
    if |data| >= 3 {
      EncodedShape(data[3..]);
      assert (|data| + 2) / 3 == (|data[3..]| + 2) / 3 + 1;
    }
  }

  /** A successful decoding is one group decoded in front of the decoding of the rest. */
  lemma DecodedStep(text: string)
    requires Decode(text).Some? && text != []
    ensures |text| >= 4
    ensures |text| == 4 ==> 1 <= |Decode(text).value| <= 3
    ensures |text| > 4 ==> Decode(text[4..]).Some? && |Decode(text).value| == 3 + |Decode(text[4..]).value|
  {}

  lemma GroupArithmetic(length: nat, bytes: nat, rest: nat)
    requires length > 4 && (length - 4) % 4 == 0 && rest <= (length - 4) / 4 * 3 <= rest + 2 && bytes == 3 + rest
    ensures length % 4 == 0 && bytes <= length / 4 * 3 <= bytes + 2
  {}

  lemma OneGroup(length: nat, bytes: nat)
    requires length == 4 && 1 <= bytes <= 3
    ensures length % 4 == 0 && bytes <= length / 4 * 3 <= bytes + 2
  {}

  /** Decoding accepts only whole groups of four characters and never yields more than three bytes a group. */
  lemma {:induction false} DecodedShape(text: string)
    requires Decode(text).Some?
    ensures |text| % 4 == 0
    ensures |Decode(text).value| <= |text| / 4 * 3 <= |Decode(text).value| + 2
    decreases |text|
  {
    if text != [] {
      DecodedStep(text);
      if |text| > 4 {
        DecodedShape(text[4..]);
        GroupArithmetic(|text|, |Decode(text).value|, |Decode(text[4..]).value|);
      } else {
        OneGroup(|text|, |Decode(text).value|);
      }
    }
  }

  // ----- What the text stands for -----

  const UPPER := "ABCDEFGHIJKLMNOPQRSTUVWXYZ"
  const LOWER := "abcdefghijklmnopqrstuvwxyz"
  const DIGITS := "0123456789"

  /** The alphabet in order. */
  function Letter(i: Sextet): char {
    if i < 26 then UPPER[i] else if i < 52 then LOWER[i - 26] else if i < 62 then DIGITS[i - 52] else "+/"[i - 62]
  }

  lemma UpperIs(i: nat)
    requires i < 26
    ensures UPPER[i] == 'A' + i as char
  {}

  lemma LowerIs(i: nat)
    requires i < 26
    ensures LOWER[i] == 'a' + i as char
  {}

  lemma SymbolIsLetter(i: Sextet)
    ensures Symbol(i) == Letter(i)
  {
    if i < 26 {
      UpperIs(i);
    } else if i < 52 {
      LowerIs(i - 26);
    }
  }

  /** Every group of four characters stands for the 24 bits of three bytes, six by six, in the alphabet's order; where
      bytes are missing at the end, padding takes the place of the characters that would hold none of their bits. */
  lemma {:induction false} EncodesBits(data: seq<Byte>, k: nat)
    requires 3 * k < |data|
    ensures 4 * k + 3 < |Encode(data)|
    ensures exists a: Sextet, b: Sextet, c: Sextet, d: Sextet ::
      Holds(data[3 * k..], Encode(data)[4 * k..], a, b, c, d)
    decreases k
  {
    if k == 0 {
      var y, z := if |data| > 1 then data[1] else 0, if |data| > 2 then data[2] else 0;
      GroupHolds(data, y, z);
      assert data[0..] == data && Encode(data)[0..] == Encode(data);
    } else {
      EncodesBits(data[3..], k - 1);
      assert data[3..][3 * (k - 1)..] == data[3 * k..];
      assert Encode(data)[4..] == Encode(data[3..]);
      assert Encode(data[3..])[4 * (k - 1)..] == Encode(data)[4 * k..];
    }
  }

  /** The first group of a text holds the first bytes. */
  ghost predicate Holds(data: seq<Byte>, text: string, a: Sextet, b: Sextet, c: Sextet, d: Sextet)
    requires data != []
  {
    var x: int := data[0];
    var y: int := if |data| > 1 then data[1] else 0;
    var z: int := if |data| > 2 then data[2] else 0;
    && x * 65536 + y * 256 + z == a * 262144 + b * 4096 + c * 64 + d
    && |text| >= 4 && text[0] == Letter(a) && text[1] == Letter(b)
    && text[2] == (if |data| > 1 then Letter(c) else '=') && text[3] == (if |data| > 2 then Letter(d) else '=')
  }

  lemma GroupHolds(data: seq<Byte>, y: Byte, z: Byte)
    requires data != [] && y == (if |data| > 1 then data[1] else 0) && z == (if |data| > 2 then data[2] else 0)
    ensures Holds(data, Encode(data), Sextet0(data[0]), Sextet1(data[0], y), Sextet2(y, z), Sextet3(z))
  {
    GroupBits(data[0], y, z);
    FirstFour(data, y, z);
    SymbolIsLetter(Sextet0(data[0]));
    SymbolIsLetter(Sextet1(data[0], y));
    SymbolIsLetter(Sextet2(y, z));
    SymbolIsLetter(Sextet3(z));
  }

  lemma FirstFour(data: seq<Byte>, y: Byte, z: Byte)
    requires data != [] && y == (if |data| > 1 then data[1] else 0) && z == (if |data| > 2 then data[2] else 0)
    ensures var text := Encode(data);
      && |text| >= 4 && text[0] == Symbol(Sextet0(data[0])) && text[1] == Symbol(Sextet1(data[0], y))
      && text[2] == (if |data| > 1 then Symbol(Sextet2(y, z)) else '=')
      && text[3] == (if |data| > 2 then Symbol(Sextet3(z)) else '=')
  {}

  lemma GroupBits(x: int, y: int, z: int)
    requires 0 <= x < 256 && 0 <= y < 256 && 0 <= z < 256
    ensures x * 65536 + y * 256 + z
         == Sextet0(x) * 262144 + Sextet1(x, y) * 4096 + Sextet2(y, z) * 64 + Sextet3(z)
  {}

  /** Whole groups of characters of the alphabet, up to two at the end that may be padding. */
  ghost predicate WholeGroups(text: string) {
    && |text| >= 4 && |text| % 4 == 0
    && (forall i :: 0 <= i < |text| - 2 ==> Value(text[i]).Some?)
    && (Value(text[|text| - 1]).Some? || text[|text| - 1] == '=')
    && (Value(text[|text| - 2]).Some? || (text[|text| - 2] == '=' && text[|text| - 1] == '='))
  }

  /** Exactly those texts are decoded. */
  lemma {:induction false} DecodesIff(text: string)
    ensures Decode(text).Some? <==> text == "" || WholeGroups(text)
    decreases |text|
  {
    if 0 < |text| <= 4 {
      OneGroupIff(text);
    } else if text != "" {
      DecodesIff(text[4..]);
      MoreGroupsIff(text);
      GroupInFront(text, text[4..]);
    }
  }

  lemma GroupInFront(text: string, rest: string)
    requires |text| > 4 && rest == text[4..]
    ensures WholeGroups(text) <==> WholeGroups(rest) && forall i :: 0 <= i < 4 ==> Value(text[i]).Some?
  {
    assert |rest| % 4 == |text| % 4;
    assert forall i :: 0 <= i < |rest| ==> rest[i] == text[i + 4];
    assert forall i :: 4 <= i < |text| ==> text[i] == rest[i - 4];
  }

  lemma OneGroupIff(text: string)
    requires 0 < |text| <= 4
    ensures Decode(text).Some? <==>
      |text| == 4 && Value(text[0]).Some? && Value(text[1]).Some?
      && (Value(text[3]).Some? || text[3] == '=')
      && (Value(text[2]).Some? || (text[2] == '=' && text[3] == '='))
  {}

  lemma MoreGroupsIff(text: string)
    requires |text| > 4
    ensures Decode(text).Some? <==>
      Decode(text[4..]).Some? && forall i :: 0 <= i < 4 ==> Value(text[i]).Some?
  {}

  lemma ValueIff(c: char)
    ensures Value(c).Some? <==> exists i: Sextet :: Letter(i) == c
    ensures Value(c).Some? ==> Letter(Value(c).value) == c
  {
    if Value(c).Some? {
      SymbolIsLetter(Value(c).value);
    }
    forall i: Sextet | Letter(i) == c
      ensures Value(c) == Some(i)
    {
      SymbolIsLetter(i);
      SymbolValue(i);
    }
  }
}
