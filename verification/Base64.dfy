/** Standard base64 (section 4 of RFC 4648), padded and unpadded, as the decoders accept it. */
module Base64 {

  type Byte = n: int | 0 <= n < 256 witness 0
  type Bytes = seq<Byte>

  const PAD: Byte := 61

  /** The alphabet character of a six-bit value. */
  function Char(v: int): Byte
    requires 0 <= v < 64
  {
    if v < 26 then 65 + v else if v < 52 then 97 + v - 26 else if v < 62 then 48 + v - 52 else if v == 62 then 43 else 47
  }

  /** The six-bit value of a character, -1 outside the alphabet. */
  function Value(c: Byte): int {
    if 65 <= c <= 90 then c - 65 else if 97 <= c <= 122 then c - 97 + 26 else if 48 <= c <= 57 then c - 48 + 52
    else if c == 43 then 62 else if c == 47 then 63 else -1
  }

  predicate InAlphabet(c: Byte) { Value(c) >= 0 }

  lemma CharRoundTrip(v: int)
    requires 0 <= v < 64
    ensures Value(Char(v)) == v && Char(v) != PAD
  {
  }

  // ---- one group ----

  function Encode1(a: Byte): Bytes { [Char(a / 4), Char(a % 4 * 16)] }

  function Encode2(a: Byte, b: Byte): Bytes { [Char(a / 4), Char(a % 4 * 16 + b / 16), Char(b % 16 * 4)] }

  function Encode3(a: Byte, b: Byte, c: Byte): Bytes {
    [Char(a / 4), Char(a % 4 * 16 + b / 16), Char(b % 16 * 4 + c / 64), Char(c % 64)]
  }

  function Decode1(p: Byte, q: Byte): Bytes
    requires InAlphabet(p) && InAlphabet(q)
  {
    [Value(p) * 4 + Value(q) / 16]
  }

  function Decode2(p: Byte, q: Byte, r: Byte): Bytes
    requires InAlphabet(p) && InAlphabet(q) && InAlphabet(r)
  {
    [Value(p) * 4 + Value(q) / 16, Value(q) % 16 * 16 + Value(r) / 4]
  }

  function Decode3(p: Byte, q: Byte, r: Byte, s: Byte): Bytes
    requires InAlphabet(p) && InAlphabet(q) && InAlphabet(r) && InAlphabet(s)
  {
    [Value(p) * 4 + Value(q) / 16, Value(q) % 16 * 16 + Value(r) / 4, Value(r) % 4 * 64 + Value(s)]
  }

  /** Six bits put together from two bytes come apart again. */
  lemma SixBits(a: Byte, b: Byte)
    ensures (a % 4 * 16 + b / 16) / 16 == a % 4 && (a % 4 * 16 + b / 16) % 16 == b / 16
    ensures (a % 16 * 4 + b / 64) / 4 == a % 16 && (a % 16 * 4 + b / 64) % 4 == b / 64
  {
  }

  lemma OneByteRoundTrip(a: Byte)
    ensures var e := Encode1(a); InAlphabet(e[0]) && InAlphabet(e[1]) && Decode1(e[0], e[1]) == [a]
  {
    CharRoundTrip(a / 4);
    CharRoundTrip(a % 4 * 16);
  }

  lemma TwoBytesRoundTrip(a: Byte, b: Byte)
    ensures var e := Encode2(a, b); InAlphabet(e[0]) && InAlphabet(e[1]) && InAlphabet(e[2]) && Decode2(e[0], e[1], e[2]) == [a, b]
  {
    CharRoundTrip(a / 4);
    CharRoundTrip(a % 4 * 16 + b / 16);
    CharRoundTrip(b % 16 * 4);
  }

  lemma ThreeBytesRoundTrip(a: Byte, b: Byte, c: Byte)
    ensures var e := Encode3(a, b, c);
      InAlphabet(e[0]) && InAlphabet(e[1]) && InAlphabet(e[2]) && InAlphabet(e[3]) && Decode3(e[0], e[1], e[2], e[3]) == [a, b, c]
  {
    CharRoundTrip(a / 4);
    CharRoundTrip(a % 4 * 16 + b / 16);
    CharRoundTrip(b % 16 * 4 + c / 64);
    CharRoundTrip(c % 64);
    SixBits(a, b);
    SixBits(b, c);
  }

  // ---- whole texts ----

  /** The encoding without padding. */
  function EncodeRaw(b: Bytes): Bytes {
    if b == [] then []
    else if |b| == 1 then Encode1(b[0])
    else if |b| == 2 then Encode2(b[0], b[1])
    else Encode3(b[0], b[1], b[2]) + EncodeRaw(b[3..])
  }

  function Padding(b: Bytes): Bytes {
    if |b| >= 3 then Padding(b[3..]) else if |b| == 2 then [PAD] else if |b| == 1 then [PAD, PAD] else []
  }

  /** The canonical, padded encoding. */
  function Encode(b: Bytes): Bytes { EncodeRaw(b) + Padding(b) }

  datatype Decoded = Corrupt | Plain(bytes: Bytes)

  function Prepend(b: Bytes, d: Decoded): Decoded {
    if d.Corrupt? then Corrupt else Plain(b + d.bytes)
  }

  predicate FullGroup(t: Bytes) {
    |t| >= 4 && InAlphabet(t[0]) && InAlphabet(t[1]) && InAlphabet(t[2]) && InAlphabet(t[3])
  }

  /** The padded decoder: full groups, then at most one padded group that ends the text. */
  function DecodePadded(t: Bytes): Decoded {
    if t == [] then Plain([])
    else if FullGroup(t) then Prepend(Decode3(t[0], t[1], t[2], t[3]), DecodePadded(t[4..]))
    else if |t| == 4 && InAlphabet(t[0]) && InAlphabet(t[1]) && t[2] == PAD && t[3] == PAD then Plain(Decode1(t[0], t[1]))
    else if |t| == 4 && InAlphabet(t[0]) && InAlphabet(t[1]) && InAlphabet(t[2]) && t[3] == PAD then Plain(Decode2(t[0], t[1], t[2]))
    else Corrupt
  }

  /** The unpadded decoder: full groups, then two or three characters at most. */
  function DecodeRaw(t: Bytes): Decoded {
    if t == [] then Plain([])
    else if FullGroup(t) then Prepend(Decode3(t[0], t[1], t[2], t[3]), DecodeRaw(t[4..]))
    else if |t| == 2 && InAlphabet(t[0]) && InAlphabet(t[1]) then Plain(Decode1(t[0], t[1]))
    else if |t| == 3 && InAlphabet(t[0]) && InAlphabet(t[1]) && InAlphabet(t[2]) then Plain(Decode2(t[0], t[1], t[2]))
    else Corrupt
  }

  /** Both decoders read one full group at a time. */
  lemma GroupDecodes(a: Byte, b: Byte, c: Byte, rest: Bytes)
    ensures DecodePadded(Encode3(a, b, c) + rest) == Prepend([a, b, c], DecodePadded(rest))
    ensures DecodeRaw(Encode3(a, b, c) + rest) == Prepend([a, b, c], DecodeRaw(rest))
  {
    ThreeBytesRoundTrip(a, b, c);
    var e := Encode3(a, b, c);
    var t := e + rest;
    assert t[0] == e[0] && t[1] == e[1] && t[2] == e[2] && t[3] == e[3];
    assert t[4..] == rest;
  }

  lemma Associates(x: Bytes, y: Bytes, z: Bytes)
    ensures (x + y) + z == x + (y + z)
  {
  }

  lemma FirstThree(b: Bytes)
    requires |b| >= 3
    ensures [b[0], b[1], b[2]] + b[3..] == b
  {
  }

  lemma RawFirstGroup(b: Bytes)
    requires |b| >= 3
    ensures EncodeRaw(b) == Encode3(b[0], b[1], b[2]) + EncodeRaw(b[3..])
    ensures Padding(b) == Padding(b[3..])
  {
  }

  /** Texts of three bytes and more split off their first group. */
  lemma FirstGroup(b: Bytes, group: Bytes, rest: Bytes)
    requires |b| >= 3 && group == Encode3(b[0], b[1], b[2]) && rest == b[3..]
    ensures [b[0], b[1], b[2]] + rest == b
    ensures EncodeRaw(b) == group + EncodeRaw(rest)
    ensures Encode(b) == group + Encode(rest)
  {
    FirstThree(b);
    RawFirstGroup(b);
    Associates(group, EncodeRaw(rest), Padding(rest));
  }

  lemma OneByteDecodes(a: Byte)
    ensures DecodePadded(Encode1(a) + [PAD, PAD]) == Plain([a])
    ensures DecodeRaw(Encode1(a)) == Plain([a])
    ensures DecodePadded(Encode1(a)) == Corrupt
  {
    OneByteRoundTrip(a);
    var e := Encode1(a);
    var t := e + [PAD, PAD];
    assert t[0] == e[0] && t[1] == e[1] && t[2] == PAD && t[3] == PAD;
    assert !InAlphabet(PAD);
  }

  lemma TwoBytesDecode(a: Byte, b: Byte)
    ensures DecodePadded(Encode2(a, b) + [PAD]) == Plain([a, b])
    ensures DecodeRaw(Encode2(a, b)) == Plain([a, b])
    ensures DecodePadded(Encode2(a, b)) == Corrupt
  {
    TwoBytesRoundTrip(a, b);
    var e := Encode2(a, b);
    var t := e + [PAD];
    assert t[0] == e[0] && t[1] == e[1] && t[2] == e[2] && t[3] == PAD;
    assert !InAlphabet(PAD) && !InAlphabet(t[3]);
    CharRoundTrip(b % 16 * 4);
  }

  lemma TailShape(b: Bytes)
    requires |b| < 3
    ensures b == [] ==> EncodeRaw(b) == [] && Encode(b) == []
    ensures |b| == 1 ==> b == [b[0]] && EncodeRaw(b) == Encode1(b[0]) && Padding(b) == [PAD, PAD]
    ensures |b| == 2 ==> b == [b[0], b[1]] && EncodeRaw(b) == Encode2(b[0], b[1]) && Padding(b) == [PAD]
  {
  }

  lemma TailDecodes(b: Bytes)
    requires |b| < 3
    ensures DecodePadded(Encode(b)) == Plain(b)
    ensures DecodeRaw(EncodeRaw(b)) == Plain(b)
    ensures DecodePadded(EncodeRaw(b)) == if Padding(b) == [] then Plain(b) else Corrupt
  {
    TailShape(b);
    if |b| == 1 {
      OneByteDecodes(b[0]);
    } else if |b| == 2 {
      TwoBytesDecode(b[0], b[1]);
    }
  }

  /** The canonical encoding decodes to what was encoded. */
  lemma {:induction false} PaddedRoundTrip(b: Bytes)
    ensures DecodePadded(Encode(b)) == Plain(b)
  {
    if |b| < 3 {
      TailDecodes(b);
    } else {
      FirstGroup(b, Encode3(b[0], b[1], b[2]), b[3..]);
      PaddedRoundTrip(b[3..]);
      GroupDecodes(b[0], b[1], b[2], Encode(b[3..]));
    }
  }

  lemma {:induction false} RawRoundTrip(b: Bytes)
    ensures DecodeRaw(EncodeRaw(b)) == Plain(b)
  {
    if |b| < 3 {
      TailDecodes(b);
    } else {
      FirstGroup(b, Encode3(b[0], b[1], b[2]), b[3..]);
      RawRoundTrip(b[3..]);
      GroupDecodes(b[0], b[1], b[2], EncodeRaw(b[3..]));
    }
  }

  /** The padded decoder takes an unpadded text only when there is nothing to pad. */
  lemma {:induction false} PaddedOnRaw(b: Bytes)
    ensures DecodePadded(EncodeRaw(b)) == if Padding(b) == [] then Plain(b) else Corrupt
  {
    if |b| < 3 {
      TailDecodes(b);
    } else {
      FirstGroup(b, Encode3(b[0], b[1], b[2]), b[3..]);
      PaddedOnRaw(b[3..]);
      GroupDecodes(b[0], b[1], b[2], EncodeRaw(b[3..]));
    }
  }

  predicate Base64Char(c: Byte) { InAlphabet(c) || c == PAD }

  /** Encoded text is made of alphabet characters and padding. */
  lemma {:induction false} EncodedCharacters(b: Bytes)
    ensures forall c | c in EncodeRaw(b) :: InAlphabet(c)
    ensures forall c | c in Encode(b) :: Base64Char(c)
    ensures b != [] ==> |EncodeRaw(b)| >= 2
  {
    if |b| >= 3 {
      ThreeBytesRoundTrip(b[0], b[1], b[2]);
      EncodedCharacters(b[3..]);
    } else if |b| == 2 {
      TwoBytesRoundTrip(b[0], b[1]);
    } else if |b| == 1 {
      OneByteRoundTrip(b[0]);
    }
  }

  // ---- what the decoders accept ----

  /** The characters with a value are those of the alphabet, each with its own place in it. */
  lemma AlphabetExactly(c: Byte)
    ensures InAlphabet(c) <==> exists v :: 0 <= v < 64 && Char(v) == c
    ensures InAlphabet(c) ==> 0 <= Value(c) < 64 && Char(Value(c)) == c
  {
  }

  /** n alphabet characters, and up to two padding characters that complete the last group of four. */
  predicate Padded(t: Bytes, n: nat) {
    && |t| % 4 == 0 && |t| - 2 <= n <= |t|
    && (forall k | 0 <= k < n :: InAlphabet(t[k])) && forall k | n <= k < |t| :: t[k] == PAD
  }

  /** Alphabet characters, of which the last group holds one more at least. */
  predicate Unpadded(t: Bytes) { |t| % 4 != 1 && forall k | 0 <= k < |t| :: InAlphabet(t[k]) }

  lemma {:induction false} PaddedAccepted(t: Bytes, n: nat)
    requires Padded(t, n)
    ensures DecodePadded(t).Plain?
  {
    if |t| > 4 || (|t| == 4 && n == 4) {
      assert forall k | 0 <= k < n - 4 :: t[4..][k] == t[k + 4];
      PaddedAccepted(t[4..], n - 4);
    } else if |t| == 4 {
      assert !InAlphabet(PAD);
    }
  }

  lemma {:induction false} AcceptedIsPadded(t: Bytes) returns (n: nat)
    requires DecodePadded(t).Plain?
    ensures Padded(t, n)
  {
    if t == [] {
      n := 0;
    } else if FullGroup(t) {
      n := AcceptedIsPadded(t[4..]);
      n := n + 4;
      assert forall k | 4 <= k < |t| :: t[k] == t[4..][k - 4];
    } else {
      n := if t[2] == PAD then 2 else 3;
    }
  }

  /** The padded decoder accepts exactly the texts of alphabet characters padded to groups of four. */
  lemma PaddedAcceptsExactly(t: Bytes)
    ensures DecodePadded(t).Plain? <==> exists n: nat :: Padded(t, n)
  {
    if DecodePadded(t).Plain? {
      var n := AcceptedIsPadded(t);
    } else {
      forall n: nat ensures !Padded(t, n) {
        if Padded(t, n) {
          PaddedAccepted(t, n);
          assert false;
        }
      }
    }
  }

  /** The unpadded decoder accepts exactly the texts of alphabet characters without a lone last one. */
  lemma {:induction false} RawAcceptsExactly(t: Bytes)
    ensures DecodeRaw(t).Plain? <==> Unpadded(t)
  {
    if |t| >= 4 {
      assert forall k | 4 <= k < |t| :: t[k] == t[4..][k - 4];
      assert (forall k | 0 <= k < |t| :: InAlphabet(t[k])) <==> FullGroup(t) && forall k | 0 <= k < |t| - 4 :: InAlphabet(t[4..][k]);
      RawAcceptsExactly(t[4..]);
    }
  }
}
