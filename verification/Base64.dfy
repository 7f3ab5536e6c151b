/** Canonical base64: the alphabet and padding of section 4 of RFC 4648, with the zero pad bits that
    section 3.5 asks of a canonical encoding. */
module Base64 {
  import opened Options

  type Byte = n: int | 0 <= n < 256
  type Sextet = n: int | 0 <= n < 64

  // ---------- the standard ----------

  /** The character for a value, as in table 1 of the standard. */
  function Digit(v: Sextet): char {
    if v < 26 then 'A' + v as char
    else if v < 52 then 'a' + (v - 26) as char
    else if v < 62 then '0' + (v - 52) as char
    else if v == 62 then '+' else '/'
  }

  // Three bytes are 24 bits, read as four values of six bits.

  function V0(a: Byte): Sextet { a / 4 }
  function V1(a: Byte, b: Byte): Sextet { a % 4 * 16 + b / 16 }
  function V2(b: Byte, c: Byte): Sextet { b % 16 * 4 + c / 64 }
  function V3(c: Byte): Sextet { c % 64 }

  function B0(v: Sextet, w: Sextet): Byte { v * 4 + w / 16 }
  function B1(v: Sextet, w: Sextet): Byte { v % 16 * 16 + w / 4 }
  function B2(v: Sextet, w: Sextet): Byte { v % 4 * 64 + w }

  /** Three bytes become four characters; a final group of one or two bytes is filled with zero bits and padded. */
  function Encode(bytes: seq<Byte>): string {
    if bytes == [] then ""
    else if |bytes| == 1 then [Digit(V0(bytes[0])), Digit(V1(bytes[0], 0)), '=', '=']
    else if |bytes| == 2 then [Digit(V0(bytes[0])), Digit(V1(bytes[0], bytes[1])), Digit(V2(bytes[1], 0)), '=']
    else
      [Digit(V0(bytes[0])), Digit(V1(bytes[0], bytes[1])), Digit(V2(bytes[1], bytes[2])), Digit(V3(bytes[2]))] + Encode(bytes[3..])
  }

  /** The alphabet of the standard: the letters from A and from a, the digits from 0, then two signs. */
  lemma DigitIsStandard(v: Sextet)
    ensures Digit(0) == 'A' && Digit(26) == 'a' && Digit(52) == '0' && Digit(62) == '+' && Digit(63) == '/'
    ensures v < 63 && v !in {25, 51, 61, 62} ==> Digit(v + 1) as int == Digit(v) as int + 1
  {}

  /** The test vectors of section 10 of the standard: "f" to "foobar". */
  lemma EncodesTestVectors()
    ensures Encode([]) == ""
    ensures Encode([102]) == "Zg==" && Encode([102, 111]) == "Zm8=" && Encode([102, 111, 111]) == "Zm9v"
    ensures Encode([102, 111, 111] + [98]) == "Zm9vYg==" && Encode([102, 111, 111] + [98, 97]) == "Zm9vYmE="
    ensures Encode([102, 111, 111] + [98, 97, 114]) == "Zm9vYmFy"
  {
    EncodesFoo();
    EncodesBar();
    hide Encode, Digit;
    EncodeGroup([102, 111, 111], [98]);
    EncodeGroup([102, 111, 111], [98, 97]);
    EncodeGroup([102, 111, 111], [98, 97, 114]);
  }

  lemma EncodesFoo()
    ensures Encode([]) == ""
    ensures Encode([102]) == "Zg==" && Encode([102, 111]) == "Zm8=" && Encode([102, 111, 111]) == "Zm9v"
  {
    assert [102, 111, 111][3..] == [];
  }

  lemma EncodesBar()
    ensures Encode([98]) == "Yg==" && Encode([98, 97]) == "YmE=" && Encode([98, 97, 114]) == "YmFy"
  {
    assert [98, 97, 114][3..] == [];
  }

  // ---------- the recogniser ----------

  predicate IsDigit(c: char) {
    'A' <= c <= 'Z' || 'a' <= c <= 'z' || '0' <= c <= '9' || c == '+' || c == '/'
  }

  function Value(c: char): (v: Sextet)
    requires IsDigit(c)
  {
    if 'A' <= c <= 'Z' then c as int - 65
    else if 'a' <= c <= 'z' then c as int - 71
    else if '0' <= c <= '9' then c as int + 4
    else if c == '+' then 62 else 63
  }

  function Padding(data: string): (p: nat)
    ensures p <= 2 && p <= |data|
  {
    if |data| >= 2 && data[|data| - 1] == '=' && data[|data| - 2] == '=' then 2
    else if |data| >= 1 && data[|data| - 1] == '=' then 1
    else 0
  }

  /** What the recogniser checks, all at once. */
  ghost predicate Recognised(data: string) {
    && data != [] && |data| % 4 == 0
    && (forall i :: 0 <= i < |data| - Padding(data) ==> IsDigit(data[i]))
    && (Padding(data) == 2 ==> Value(data[|data| - 3]) % 16 == 0)
    && (Padding(data) == 1 ==> Value(data[|data| - 2]) % 4 == 0)
  }

  method IsCanonicalBase64(data: string) returns (canonical: bool)
    ensures canonical <==> Recognised(data)
  {
    if data == [] || |data| % 4 != 0 {
      return false;
    }
    var padding := Padding(data);
    var contentLength := |data| - padding;
    var lastValue: Sextet := 0;
    for index := 0 to contentLength
      invariant forall i :: 0 <= i < index ==> IsDigit(data[i])
      invariant index > 0 ==> lastValue == Value(data[index - 1])
    {
      if !IsDigit(data[index]) {
        return false;
      }
      lastValue := Value(data[index]);
    }
    for index := contentLength to |data|
    {
      if data[index] != '=' {
        return false;
      }
    }
    if (padding == 2 && lastValue % 16 != 0) || (padding == 1 && lastValue % 4 != 0) {
      return false;
    }
    return true;
  }

  function DecodedLength(data: string): int {
    |data| / 4 * 3 - Padding(data)
  }

  // ---------- recognised exactly when it is an encoding ----------

  lemma DigitHasValue(v: Sextet)
    ensures IsDigit(Digit(v)) && Value(Digit(v)) == v && Digit(v) != '='
  {}

  lemma ValueHasDigit(c: char)
    requires IsDigit(c)
    ensures Digit(Value(c)) == c
  {}

  /** A text of more than one group is recognised when its first group has no padding and the rest is recognised. */
  lemma FirstGroup(data: string)
    requires |data| > 4 && |data| % 4 == 0
    ensures Recognised(data) <==> (forall i :: 0 <= i < 4 ==> IsDigit(data[i])) && Recognised(data[4..])
    ensures Padding(data) == Padding(data[4..])
  {}

  /** Splitting three bytes into values and joining the values gives the bytes back. */
  lemma BytesRoundTrip(a: Byte, b: Byte, c: Byte)
    ensures B0(V0(a), V1(a, b)) == a && B1(V1(a, b), V2(b, c)) == b && B2(V2(b, c), V3(c)) == c
    ensures V1(a, 0) % 16 == 0 && V2(b, 0) % 4 == 0
  {
    FirstByte(a, b);
    SecondByte(a, b, c);
    ThirdByte(b, c);
    hide B0, B1, B2, V0, V3;
  }

  lemma FirstByte(a: Byte, b: Byte)
    ensures B0(V0(a), V1(a, b)) == a
  {
    assert V1(a, b) / 16 == a % 4;
  }

  lemma SecondByte(a: Byte, b: Byte, c: Byte)
    ensures B1(V1(a, b), V2(b, c)) == b
  {
    assert V1(a, b) % 16 == b / 16 && V2(b, c) / 4 == b % 16;
  }

  lemma ThirdByte(b: Byte, c: Byte)
    ensures B2(V2(b, c), V3(c)) == c
  {
    assert V2(b, c) % 4 == c / 64;
  }

  /** Joining four values into bytes and splitting the bytes gives the values back. */
  lemma ValuesRoundTrip(v: Sextet, w: Sextet, x: Sextet, y: Sextet)
    ensures V0(B0(v, w)) == v && V1(B0(v, w), B1(w, x)) == w && V2(B1(w, x), B2(x, y)) == x && V3(B2(x, y)) == y
    ensures w % 16 == 0 ==> V1(B0(v, w), 0) == w
    ensures x % 4 == 0 ==> V2(B1(w, x), 0) == x
  {}

  /** The bytes that a recognised text stands for. */
  function Decode(data: string): (bytes: seq<Byte>)
    requires Recognised(data)
    decreases |data|
  {
    var v, w := Value(data[0]), Value(data[1]);
    if data[2] == '=' then [B0(v, w)]
    else
      var x := Value(data[2]);
      if data[3] == '=' then [B0(v, w), B1(w, x)]
      else
        var group := [B0(v, w), B1(w, x), B2(x, Value(data[3]))];
        if |data| == 4 then group else FirstGroup(data); group + Decode(data[4..])
  }

  lemma OneByte(a: Byte)
    ensures var data := Encode([a]); Recognised(data) && DecodedLength(data) == 1 && Decode(data) == [a]
  {}

  lemma TwoBytes(a: Byte, b: Byte)
    ensures var data := Encode([a, b]); Recognised(data) && DecodedLength(data) == 2 && Decode(data) == [a, b]
  {
    hide V0, V1, V2, V3, B0, B1, Digit, IsDigit, Value;
    BytesRoundTrip(a, b, 0);
    DigitHasValue(V0(a));
    DigitHasValue(V1(a, b));
    DigitHasValue(V2(b, 0));
    var data := Encode([a, b]);
    assert data == [Digit(V0(a)), Digit(V1(a, b)), Digit(V2(b, 0)), '='];
    assert Padding(data) == 1;
  }

  lemma ThreeBytes(a: Byte, b: Byte, c: Byte)
    ensures var data := Encode([a, b, c]);
            && |data| == 4 && (forall i :: 0 <= i < 4 ==> IsDigit(data[i]) && data[i] != '=')
            && [B0(Value(data[0]), Value(data[1])), B1(Value(data[1]), Value(data[2])), B2(Value(data[2]), Value(data[3]))] == [a, b, c]
  {
    hide V0, V1, V2, V3, B0, B1, B2, Digit, IsDigit, Value;
    BytesRoundTrip(a, b, c);
    DigitHasValue(V0(a));
    DigitHasValue(V1(a, b));
    DigitHasValue(V2(b, c));
    DigitHasValue(V3(c));
    assert [a, b, c][3..] == [];
    assert Encode([a, b, c]) == [Digit(V0(a)), Digit(V1(a, b)), Digit(V2(b, c)), Digit(V3(c))];
  }

  lemma {:induction false} EncodingDecodes(bytes: seq<Byte>)
    requires bytes != []
    ensures Recognised(Encode(bytes)) && DecodedLength(Encode(bytes)) == |bytes| && Decode(Encode(bytes)) == bytes
    decreases |bytes|
  {
    if |bytes| == 1 {
      OneByte(bytes[0]);
      assert bytes == [bytes[0]];
    } else if |bytes| == 2 {
      TwoBytes(bytes[0], bytes[1]);
      assert bytes == [bytes[0], bytes[1]];
    } else {
      var group := [bytes[0], bytes[1], bytes[2]];
      assert bytes == group + bytes[3..];
      if |bytes| > 3 {
        EncodingDecodes(bytes[3..]);
      }
      GroupThenRest(group, bytes[3..]);
    }
  }

  /** Encoding and decoding go group by group. */
  lemma EncodeGroup(group: seq<Byte>, rest: seq<Byte>)
    requires |group| == 3
    ensures Encode(group + rest) == Encode(group) + Encode(rest)
  {}

  lemma DecodeGroup(front: string, tail: string)
    requires |front| == 4 && forall i :: 0 <= i < 4 ==> IsDigit(front[i]) && front[i] != '='
    requires tail != [] ==> Recognised(tail)
    ensures Recognised(front + tail) && DecodedLength(front + tail) == 3 + DecodedLength(tail)
    ensures Decode(front + tail) ==
            [B0(Value(front[0]), Value(front[1])), B1(Value(front[1]), Value(front[2])), B2(Value(front[2]), Value(front[3]))]
            + if tail == [] then [] else Decode(tail)
  {}

  /** A full group, alone or in front of an encoding. */
  lemma GroupThenRest(group: seq<Byte>, rest: seq<Byte>)
    requires |group| == 3
    requires rest != [] ==> Recognised(Encode(rest)) && DecodedLength(Encode(rest)) == |rest| && Decode(Encode(rest)) == rest
    ensures var data := Encode(group + rest);
            Recognised(data) && DecodedLength(data) == 3 + |rest| && Decode(data) == group + rest
  {
    EncodeGroup(group, rest);
    assert group == [group[0], group[1], group[2]];
    ThreeBytes(group[0], group[1], group[2]);
    assert Encode([]) == "";
    hide Encode, Recognised, B0, B1, B2, IsDigit, Value;
    DecodeGroup(Encode(group), Encode(rest));
  }

  lemma {:induction false} DecodingEncodes(data: string)
    requires Recognised(data)
    ensures Encode(Decode(data)) == data && Decode(data) != []
    decreases |data|
  {
    hide V0, V1, V2, V3, B0, B1, B2;
    var v, w := Value(data[0]), Value(data[1]);
    ValueHasDigit(data[0]);
    ValueHasDigit(data[1]);
    if data[2] == '=' {
      assert |data| == 4 && Padding(data) == 2;
      ValuesRoundTrip(v, w, 0, 0);
    } else {
      var x := Value(data[2]);
      ValueHasDigit(data[2]);
      if data[3] == '=' {
        assert |data| == 4 && Padding(data) == 1;
        ValuesRoundTrip(v, w, x, 0);
      } else {
        ValueHasDigit(data[3]);
        ValuesRoundTrip(v, w, x, Value(data[3]));
        if |data| > 4 {
          FirstGroup(data);
          DecodingEncodes(data[4..]);
          assert Decode(data)[3..] == Decode(data[4..]);
        } else {
          assert Decode(data)[3..] == [];
        }
      }
    }
  }

  lemma EncodeIsInjective(a: seq<Byte>, b: seq<Byte>)
    requires Encode(a) == Encode(b) && a != [] && b != []
    ensures a == b
  {
    EncodingDecodes(a);
    EncodingDecodes(b);
  }

  /** A text is recognised just when it encodes some bytes; those bytes are the only ones, and the
      length computed from the text is their number. */
  lemma RecognisedIffEncoding(data: string)
    ensures Recognised(data) <==> exists bytes: seq<Byte> :: bytes != [] && Encode(bytes) == data
    ensures forall bytes: seq<Byte> :: bytes != [] && Encode(bytes) == data ==>
              DecodedLength(data) == |bytes| && Recognised(data) && bytes == Decode(data)
  {
    if Recognised(data) {
      DecodingEncodes(data);
    }
    forall bytes: seq<Byte> | bytes != [] && Encode(bytes) == data
      ensures DecodedLength(data) == |bytes| && Recognised(data) && bytes == Decode(data)
    {
      EncodingDecodes(bytes);
    }
  }

  /** The decoded length of a text, or None when it is not canonical. */
  method DecodedByteLength(data: string) returns (length: Option<nat>)
    ensures length.None? <==> !exists bytes: seq<Byte> :: bytes != [] && Encode(bytes) == data
    ensures forall bytes: seq<Byte> :: bytes != [] && Encode(bytes) == data ==> length == Some(|bytes|)
    ensures length.Some? <==> Recognised(data)
    ensures length.Some? ==> length.value == DecodedLength(data)
  {
    RecognisedIffEncoding(data);
    var canonical := IsCanonicalBase64(data);
    if !canonical {
      return None;
    }
    assert |Decode(data)| == DecodedLength(data) by { DecodingEncodes(data); }
    return Some(DecodedLength(data));
  }

  // ---------- size accounting ----------

  const MEBIBYTE: nat := 1024 * 1024
  const MAX_COUNT: nat := 5
  const IMAGE_LIMIT: nat := 3 * MEBIBYTE
  const COMBINED_LIMIT: nat := 15 * MEBIBYTE

  datatype Attachment = Attachment(data: string, isImage: bool)

  /** The raw sizes of the attachments, added up. */
  ghost function TotalLength(attachments: seq<Attachment>): int {
    if attachments == [] then 0
    else TotalLength(attachments[..|attachments| - 1]) + DecodedLength(attachments[|attachments| - 1].data)
  }

  ghost predicate Acceptable(attachments: seq<Attachment>) {
    forall a :: a in attachments ==> Recognised(a.data) && (a.isImage ==> DecodedLength(a.data) <= 3_145_728)
  }

  lemma {:induction false} TotalGrows(attachments: seq<Attachment>, k: nat)
    requires Acceptable(attachments) && k <= |attachments|
    ensures TotalLength(attachments[..k]) <= TotalLength(attachments)
    decreases |attachments|
  {
    if k < |attachments| {
      var fewer := attachments[..|attachments| - 1];
      assert attachments[|attachments| - 1] in attachments;
      DecodingEncodes(attachments[|attachments| - 1].data);
      EncodingDecodes(Decode(attachments[|attachments| - 1].data));
      TotalGrows(fewer, k);
      assert fewer[..k] == attachments[..k];
    } else {
      assert attachments[..k] == attachments;
    }
  }

  lemma NothingYet(attachments: seq<Attachment>)
    ensures TotalLength(attachments[..0]) == 0
  {}

  lemma OneMore(attachments: seq<Attachment>, index: nat)
    requires index < |attachments|
    ensures TotalLength(attachments[..index + 1]) == TotalLength(attachments[..index]) + DecodedLength(attachments[index].data)
  {
    assert attachments[..index + 1][..index] == attachments[..index];
  }

  /** The attachments are accepted just when each is canonical and within its own limit and together they
      are within the combined limit; the running total checked along the way is then their real size. */
  method AcceptSizes(attachments: seq<Attachment>) returns (combined: Option<nat>)
    ensures combined.Some? <==> |attachments| <= 5 && Acceptable(attachments) && TotalLength(attachments) <= 15_728_640
    ensures combined.Some? ==> combined.value == TotalLength(attachments)
  {
    hide Encode, Recognised, DecodedLength, TotalLength;
    if |attachments| > MAX_COUNT {
      return None;
    }
    var combinedRawBytes: nat := 0;
    assert TotalLength(attachments[..0]) == 0 by { NothingYet(attachments); }
    for index := 0 to |attachments|
      invariant Acceptable(attachments[..index])
      invariant combinedRawBytes == TotalLength(attachments[..index]) <= COMBINED_LIMIT
    {
      var item := attachments[index];
      var rawBytes := DecodedByteLength(item.data);
      if rawBytes.None? || (item.isImage && rawBytes.value > IMAGE_LIMIT) {
        assert item in attachments;
        return None;
      }
      OneMore(attachments, index);
      combinedRawBytes := combinedRawBytes + rawBytes.value;
      if combinedRawBytes > COMBINED_LIMIT {
        if Acceptable(attachments) {
          TotalGrows(attachments, index + 1);
        }
        return None;
      }
      assert attachments[..index + 1] == attachments[..index] + [item];
    }
    assert attachments[..|attachments|] == attachments;
    return Some(combinedRawBytes);
  }
}
