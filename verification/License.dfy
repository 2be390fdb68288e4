/** License files: raw XML or base64, possibly wrapped and with a byte-order mark, become the one-line
    canonical base64 that the license call expects. */
module License {
  import opened Base64
  import Strings = Text

  const BOM: Bytes := [0xEF, 0xBB, 0xBF]
  const LESS_THAN: Byte := 60

  datatype Payload = EmptyFile | Payload(text: Bytes)

  // ---- white space, on the bytes of UTF-8 text ----

  predicate AsciiSpace(c: Byte) { 9 <= c <= 13 || c == 32 }

  /** A white-space character that takes more than one byte. */
  predicate WideSpace(w: Bytes) {
    || (|w| == 2 && w[0] == 0xC2 && (w[1] == 0x85 || w[1] == 0xA0))
    || (|w| == 3 && w[0] == 0xE1 && w[1] == 0x9A && w[2] == 0x80)
    || (|w| == 3 && w[0] == 0xE2 && w[1] == 0x80 && (0x80 <= w[2] <= 0x8A || w[2] == 0xA8 || w[2] == 0xA9 || w[2] == 0xAF))
    || (|w| == 3 && w[0] == 0xE2 && w[1] == 0x81 && w[2] == 0x9F)
    || (|w| == 3 && w[0] == 0xE3 && w[1] == 0x80 && w[2] == 0x80)
  }

  predicate SpaceChar(w: Bytes) { (|w| == 1 && AsciiSpace(w[0])) || WideSpace(w) }

  /** The width of the white-space character s begins with, 0 if it begins with none. */
  function LeadingSpace(s: Bytes): (n: nat)
    ensures n <= |s| && (n > 0 ==> SpaceChar(s[..n]))
  {
    if |s| >= 1 && SpaceChar(s[..1]) then 1 else if |s| >= 2 && SpaceChar(s[..2]) then 2
    else if |s| >= 3 && SpaceChar(s[..3]) then 3 else 0
  }

  function TrailingSpace(s: Bytes): (n: nat)
    ensures n <= |s| && (n > 0 ==> SpaceChar(s[|s| - n..]))
  {
    if |s| >= 1 && SpaceChar(s[|s| - 1..]) then 1 else if |s| >= 2 && SpaceChar(s[|s| - 2..]) then 2
    else if |s| >= 3 && SpaceChar(s[|s| - 3..]) then 3 else 0
  }

  function TrimLeft(s: Bytes): Bytes {
    var n := LeadingSpace(s);
    if n > 0 then TrimLeft(s[n..]) else s
  }

  function TrimRight(s: Bytes): Bytes {
    var n := TrailingSpace(s);
    if n > 0 then TrimRight(s[..|s| - n]) else s
  }

  function Trim(s: Bytes): Bytes { TrimRight(TrimLeft(s)) }

  function StripBom(s: Bytes): Bytes { if BOM <= s then s[3..] else s }

  // ---- normalisation ----

  /** White space that wraps base64 lines. */
  predicate Wrapper(c: Byte) { c == 10 || c == 13 || c == 32 || c == 9 }

  function Compact(s: Bytes): Bytes {
    if s == [] then [] else (if Wrapper(s[0]) then [] else [s[0]]) + Compact(s[1..])
  }

  /** The bytes a trimmed, non-empty license file stands for. */
  function ContentOf(s: Bytes): Bytes
    requires s != []
  {
    if s[0] == LESS_THAN then s
    else
      match DecodePadded(Compact(s))
      case Plain(c) => StripBom(c)
      case Corrupt =>
        match DecodeRaw(Compact(s))
        case Plain(c) => StripBom(c)
        case Corrupt => s
  }

  function Normalise(x: Bytes): Payload {
    var s := Trim(StripBom(x));
    if s == [] then EmptyFile else Payload(Encode(ContentOf(s)))
  }

  // ---- trimming and compacting ----

  /** A run of white-space characters and nothing else. */
  predicate AllSpace(s: Bytes) {
    s == [] || (LeadingSpace(s) > 0 && AllSpace(s[LeadingSpace(s)..]))
  }

  lemma LeadingOfAppended(s: Bytes, w: Bytes)
    requires s != []
    ensures LeadingSpace(s) > 0 ==> LeadingSpace(s + w) == LeadingSpace(s)
  {
    var n := LeadingSpace(s);
    assert forall k | 1 <= k <= n :: (s + w)[..k] == s[..k];
  }

  lemma LeadingOfWord(w: Bytes, s: Bytes)
    requires SpaceChar(w)
    ensures LeadingSpace(w + s) == |w|
  {
    assert (w + s)[..|w|] == w;
    assert (w + s)[..1][0] == w[0];
    assert |w| >= 2 ==> (w + s)[..2][0] == w[0];
  }

  lemma {:induction false} AllSpaceAppends(s: Bytes, w: Bytes)
    requires AllSpace(s) && SpaceChar(w)
    ensures AllSpace(s + w)
  {
    if s == [] {
      LeadingOfWord(w, []);
      assert s + w == w == w + [];
      assert w[|w|..] == [];
    } else {
      var n := LeadingSpace(s);
      LeadingOfAppended(s, w);
      AllSpaceAppends(s[n..], w);
      assert (s + w)[n..] == s[n..] + w;
    }
  }

  lemma Regroup(a: Bytes, b: Bytes, c: Bytes)
    ensures a + (b + c) == (a + b) + c
  {
  }

  lemma AllSpacePrepends(w: Bytes, s: Bytes)
    requires SpaceChar(w) && AllSpace(s)
    ensures AllSpace(w + s)
  {
    LeadingOfWord(w, s);
    assert (w + s)[|w|..] == s;
  }

  /** One character off the front. */
  lemma DropLeading(s: Bytes) returns (w: Bytes, rest: Bytes)
    requires LeadingSpace(s) > 0
    ensures s == w + rest && SpaceChar(w) && |rest| < |s| && TrimLeft(s) == TrimLeft(rest)
  {
    var n := LeadingSpace(s);
    w, rest := s[..n], s[n..];
  }

  lemma DropTrailing(s: Bytes) returns (rest: Bytes, w: Bytes)
    requires TrailingSpace(s) > 0
    ensures s == rest + w && SpaceChar(w) && |rest| < |s| && TrimRight(s) == TrimRight(rest)
  {
    var n := TrailingSpace(s);
    rest, w := s[..|s| - n], s[|s| - n..];
  }

  lemma {:induction false} TrimLeftSplits(s: Bytes) returns (lead: Bytes)
    ensures AllSpace(lead) && s == lead + TrimLeft(s)
    decreases |s|
  {
    if LeadingSpace(s) == 0 {
      lead := [];
    } else {
      var w, rest := DropLeading(s);
      var more := TrimLeftSplits(rest);
      lead := w + more;
      AllSpacePrepends(w, more);
      Regroup(w, more, TrimLeft(rest));
    }
  }

  lemma {:induction false} TrimRightSplits(s: Bytes) returns (trail: Bytes)
    ensures AllSpace(trail) && s == TrimRight(s) + trail
    decreases |s|
  {
    if TrailingSpace(s) == 0 {
      trail := [];
    } else {
      var rest, w := DropTrailing(s);
      var more := TrimRightSplits(rest);
      trail := more + w;
      AllSpaceAppends(more, w);
      Regroup(TrimRight(rest), more, w);
    }
  }

  /** Trimmed text has no white space at either end. */
  lemma {:induction false} TrimmedEnds(s: Bytes)
    ensures TrailingSpace(TrimRight(s)) == 0
    decreases |s|
  {
    if TrailingSpace(s) > 0 {
      var rest, w := DropTrailing(s);
      TrimmedEnds(rest);
    }
  }

  lemma {:induction false} CompactConcat(a: Bytes, b: Bytes)
    ensures Compact(a + b) == Compact(a) + Compact(b)
  {
    if a == [] {
      assert a + b == b;
    } else {
      assert (a + b)[1..] == a[1..] + b;
      CompactConcat(a[1..], b);
    }
  }

  predicate Wrapped(x: Bytes) {
    forall c | c in x :: Wrapper(c) || Base64Char(c)
  }

  /** In wrapped base64 the only white space is what compacting drops. */
  lemma {:induction false} SpaceInWrapped(s: Bytes)
    requires Wrapped(s) && AllSpace(s)
    ensures Compact(s) == []
  {
    if s != [] {
      var n := LeadingSpace(s);
      assert s[0] in s && s[..n][0] == s[0];
      assert n == 1 && Wrapper(s[0]);
      SpaceInWrapped(s[1..]);
    }
  }

  lemma TrimKeepsCompact(s: Bytes)
    requires Wrapped(s)
    ensures Compact(Trim(s)) == Compact(s)
  {
    var lead := TrimLeftSplits(s);
    var mid := TrimLeft(s);
    var trail := TrimRightSplits(mid);
    assert forall c | c in lead || c in mid :: c in s;
    assert forall c | c in trail :: c in mid;
    SpaceInWrapped(lead);
    SpaceInWrapped(trail);
    CompactConcat(lead, mid);
    CompactConcat(Trim(s), trail);
  }

  lemma {:induction false} CompactedCharacters(s: Bytes)
    requires forall c | c in Compact(s) :: Base64Char(c)
    ensures Wrapped(s)
  {
    if s != [] {
      assert forall c | c in Compact(s[1..]) :: c in Compact(s);
      CompactedCharacters(s[1..]);
      assert !Wrapper(s[0]) ==> Compact(s)[0] == s[0];
      assert forall c | c in s :: c == s[0] || c in s[1..];
    }
  }

  lemma {:induction false} CompactIdentity(s: Bytes)
    requires forall c | c in s :: Base64Char(c)
    ensures Compact(s) == s
  {
    if s != [] {
      assert s[0] in s;
      CompactIdentity(s[1..]);
    }
  }

  /** Text of base64 characters keeps its ends when trimmed. */
  lemma TrimIdentity(s: Bytes)
    requires forall c | c in s :: Base64Char(c)
    ensures Trim(s) == s && StripBom(s) == s
  {
    if s != [] {
      hide SpaceChar, WideSpace, AsciiSpace;
      assert s[0] in s;
      NoLeadingIn(s);
      NoTrailing(s);
    }
  }

  lemma NoLeadingIn(s: Bytes)
    requires s != []
    ensures LeadingSpace(s) > 0 ==> !Base64Char(s[0])
  {
    var n := LeadingSpace(s);
    StartsNoSpace(s[..n]);
    assert n > 0 ==> s[..n][0] == s[0];
  }

  lemma NoTrailing(s: Bytes)
    requires forall c | c in s :: Base64Char(c)
    ensures TrailingSpace(s) == 0
  {
    assert forall k | 0 <= k < |s| :: s[k] in s;
    assert TrailingSpace(s) > 0 ==> !Base64Char(s[|s| - TrailingSpace(s)]) by {
      StartsNoSpace(s[|s| - TrailingSpace(s)..]);
    }
  }

  lemma StartsNoSpace(w: Bytes)
    ensures SpaceChar(w) ==> !Base64Char(w[0])
  {
  }

  // ---- the results ----

  /** Trimming splits a text into white space, its middle and white space. */
  lemma TrimSplits(s: Bytes) returns (lead: Bytes, trail: Bytes)
    ensures AllSpace(lead) && AllSpace(trail) && s == lead + Trim(s) + trail
  {
    lead := TrimLeftSplits(s);
    trail := TrimRightSplits(TrimLeft(s));
    Regroup(lead, Trim(s), trail);
  }

  /** The normalised text of any wrapping of t depends on what t decodes to. */
  lemma WrappingOf(x: Bytes, t: Bytes)
    requires Compact(x) == t && t != [] && forall c | c in t :: Base64Char(c)
    ensures Trim(StripBom(x)) != [] && Compact(Trim(StripBom(x))) == t && Trim(StripBom(x))[0] != LESS_THAN
  {
    CompactedCharacters(x);
    assert x != [] && x[0] in x;
    assert StripBom(x) == x;
    TrimKeepsCompact(x);
    TrimmedFirst(x);
  }

  lemma TrimmedFirst(x: Bytes)
    requires Wrapped(x)
    ensures Trim(x) != [] ==> Trim(x)[0] != LESS_THAN
  {
    var lead, trail := TrimSplits(x);
    var s := Trim(x);
    if s != [] {
      assert (lead + s + trail)[|lead|] == s[0];
      assert s[0] in x;
    }
  }

  /** Any wrapping of the padded or unpadded base64 of some content, with or without one byte-order mark
      inside, becomes the canonical base64 of the content. */
  lemma WrappedContent(x: Bytes, content: Bytes, marked: bool)
    requires content != [] && !(BOM <= content)
    requires var inner := if marked then BOM + content else content; Compact(x) == Encode(inner) || Compact(x) == EncodeRaw(inner)
    ensures Normalise(x) == Payload(Encode(content))
  {
    var inner := if marked then BOM + content else content;
    EncodedCharacters(inner);
    WrappingOf(x, Compact(x));
    PaddedRoundTrip(inner);
    PaddedOnRaw(inner);
    RawRoundTrip(inner);
    assert marked ==> inner[3..] == content;
    var s := Trim(StripBom(x));
    assert ContentOf(s) == StripBom(inner) == content;
  }

  /** A raw XML file, with or without a byte-order mark and surrounding white space, becomes base64 that
      decodes to the text between the white space. */
  lemma RawXml(x: Bytes) returns (lead: Bytes, trail: Bytes)
    requires var s := Trim(StripBom(x)); s != [] && s[0] == LESS_THAN
    ensures AllSpace(lead) && AllSpace(trail)
    ensures Normalise(x).Payload? && DecodePadded(Normalise(x).text).Plain?
    ensures StripBom(x) == lead + DecodePadded(Normalise(x).text).bytes + trail
    ensures TrailingSpace(DecodePadded(Normalise(x).text).bytes) == 0
  {
    lead, trail := TrimSplits(StripBom(x));
    TrimmedEnds(TrimLeft(StripBom(x)));
    XmlIsEncoded(x);
    PaddedRoundTrip(Trim(StripBom(x)));
  }

  lemma XmlIsEncoded(x: Bytes)
    requires var s := Trim(StripBom(x)); s != [] && s[0] == LESS_THAN
    ensures Normalise(x) == Payload(Encode(Trim(StripBom(x))))
  {
  }

  /** One byte-order mark in front of a file changes nothing. */
  lemma OuterMarkIsDropped(x: Bytes)
    requires !(BOM <= x)
    ensures Normalise(BOM + x) == Normalise(x)
  {
    assert (BOM + x)[3..] == x;
  }

  /** What normalising makes of canonical base64. */
  lemma OnCanonical(content: Bytes)
    ensures Normalise(Encode(content)) == if content == [] then EmptyFile else Payload(Encode(StripBom(content)))
  {
    var y := Encode(content);
    EncodedCharacters(content);
    PaddedRoundTrip(content);
    TrimIdentity(y);
    if content == [] {
      assert y == [];
    } else {
      CompactIdentity(y);
      WrappingOf(y, y);
    }
  }

  lemma EncodeIsInjective(a: Bytes, b: Bytes)
    requires Encode(a) == Encode(b)
    ensures a == b
  {
    PaddedRoundTrip(a);
    PaddedRoundTrip(b);
  }

  /** Normalising twice is normalising once exactly when the content is neither empty nor begins with a
      byte-order mark. */
  lemma IdempotentExactly(x: Bytes)
    requires Normalise(x).Payload?
    ensures var content := ContentOf(Trim(StripBom(x)));
      Normalise(Normalise(x).text) == Normalise(x) <==> content != [] && !(BOM <= content)
  {
    var content := ContentOf(Trim(StripBom(x)));
    OnCanonical(content);
    if Encode(StripBom(content)) == Encode(content) {
      EncodeIsInjective(StripBom(content), content);
    }
  }

  /** A file that is the base64 of a lone byte-order mark becomes an empty text, which is then refused; two
      marks lose one at each pass. */
  lemma MarksAreLostOneByOne(rest: Bytes)
    ensures Normalise(Encode(BOM)) == Payload([]) && Normalise([]) == EmptyFile
    ensures Normalise(Encode(BOM + rest)) == Payload(Encode(rest))
  {
    OnCanonical(BOM);
    assert BOM[3..] == [];
    OnCanonical(BOM + rest);
    assert (BOM + rest)[3..] == rest;
  }

  // ---- white space and wrapping, by other definitions ----

  /** The UTF-8 encoding of a character. */
  function Utf8(c: char): seq<int> {
    var n := c as int;
    if n < 0x80 then [n]
    else if n < 0x800 then [0xC0 + n / 64, 0x80 + n % 64]
    else if n < 0x10000 then [0xE0 + n / 4096, 0x80 + n / 64 % 64, 0x80 + n % 64]
    else [0xF0 + n / 262144, 0x80 + n / 4096 % 64, 0x80 + n / 64 % 64, 0x80 + n % 64]
  }

  function Numbers(w: Bytes): seq<int> { seq(|w|, i requires 0 <= i < |w| => w[i] as int) }

  /** The byte patterns are the encodings of the Unicode white-space characters. */
  lemma SpaceIsUnicode(w: Bytes)
    ensures SpaceChar(w) <==> exists c: char :: Strings.IsSpace(c) && Utf8(c) == Numbers(w)
  {
    if SpaceChar(w) {
      var c := Decoded(w);
      assert Strings.IsSpace(c) && Utf8(c) == Numbers(w);
    }
    forall c: char | Strings.IsSpace(c) && Utf8(c) == Numbers(w) ensures SpaceChar(w) {
      EncodedIsSpace(c, w);
    }
  }

  lemma Decoded(w: Bytes) returns (c: char)
    requires SpaceChar(w)
    ensures Strings.IsSpace(c) && Utf8(c) == Numbers(w)
  {
    var n: int;
    if |w| == 1 {
      n := w[0] as int;
    } else if |w| == 2 {
      n := (w[0] as int - 0xC0) * 64 + (w[1] as int - 0x80);
    } else {
      n := (w[0] as int - 0xE0) * 4096 + (w[1] as int - 0x80) * 64 + (w[2] as int - 0x80);
    }
    c := n as char;
  }

  lemma EncodedIsSpace(c: char, w: Bytes)
    requires Strings.IsSpace(c) && Utf8(c) == Numbers(w)
    ensures SpaceChar(w)
  {
    assert |w| == |Utf8(c)| && forall i | 0 <= i < |w| :: w[i] as int == Utf8(c)[i];
  }

  /** Trimming leaves no white-space character at either end. */
  lemma TrimmedExactly(s: Bytes, n: nat)
    requires 1 <= n <= 3 && n <= |Trim(s)|
    ensures !SpaceChar(Trim(s)[..n]) && !SpaceChar(Trim(s)[|Trim(s)| - n..])
  {
    var mid := TrimLeft(s);
    NoLeading(s);
    TrimmedEnds(mid);
    var trail := TrimRightSplits(mid);
    assert Trim(s)[..n] == mid[..n];
    ShortestSpace(mid, n);
    ShortestTrail(Trim(s), n);
  }

  lemma {:induction false} NoLeading(s: Bytes)
    ensures LeadingSpace(TrimLeft(s)) == 0
    decreases |s|
  {
    if LeadingSpace(s) > 0 {
      NoLeading(s[LeadingSpace(s)..]);
    }
  }

  lemma ShortestSpace(s: Bytes, n: nat)
    requires 1 <= n <= 3 && n <= |s|
    ensures SpaceChar(s[..n]) ==> LeadingSpace(s) > 0
  {
  }

  lemma ShortestTrail(s: Bytes, n: nat)
    requires 1 <= n <= 3 && n <= |s|
    ensures SpaceChar(s[|s| - n..]) ==> TrailingSpace(s) > 0
  {
  }

  /** Lines with a separator between them. */
  function Joined(lines: seq<Bytes>, sep: Bytes): Bytes {
    if lines == [] then [] else if |lines| == 1 then lines[0] else lines[0] + sep + Joined(lines[1..], sep)
  }

  function Flat(lines: seq<Bytes>): Bytes { if lines == [] then [] else lines[0] + Flat(lines[1..]) }

  lemma {:induction false} CompactJoined(lines: seq<Bytes>, sep: Bytes)
    requires Compact(sep) == []
    ensures Compact(Joined(lines, sep)) == Compact(Flat(lines))
    decreases |lines|
  {
    if |lines| == 1 {
      assert lines[1..] == [] && Flat(lines[1..]) == [] && lines[0] + [] == lines[0];
    } else if |lines| > 1 {
      CompactJoined(lines[1..], sep);
      CompactConcat(lines[0] + sep, Joined(lines[1..], sep));
      CompactConcat(lines[0], sep);
      CompactConcat(lines[0], Flat(lines[1..]));
      assert Compact(lines[0]) + [] == Compact(lines[0]);
    }
  }

  /** Base64 cut into lines of any length, with any line end or an indent between them, stands for its content. */
  lemma LineWrappedContent(lines: seq<Bytes>, sep: Bytes, content: Bytes)
    requires sep in [[10], [13, 10], [13], [32], [9], [10, 9], [13, 10, 32]]
    requires content != [] && !(BOM <= content) && Flat(lines) == Encode(content)
    ensures Normalise(Joined(lines, sep)) == Payload(Encode(content))
  {
    assert [10, 9][1..] == [9] && [13, 10][1..] == [10] && [13, 10, 32][1..] == [10, 32] && [10, 32][1..] == [32];
    assert forall b: Byte | b in [9, 10, 13, 32] :: Compact([b]) == Compact([b][1..]) && [b][1..] == [];
    assert Compact([10, 32]) == Compact([32]) && Compact([10]) == [] && Compact([32]) == [] && Compact([9]) == [];
    CompactJoined(lines, sep);
    EncodedCharacters(content);
    CompactIdentity(Encode(content));
    WrappedContent(Joined(lines, sep), content, false);
  }

  /** A text that is neither XML nor base64 is encoded as it is. */
  lemma OtherTextIsEncoded(x: Bytes)
    requires var s := Trim(StripBom(x)); s != [] && s[0] != LESS_THAN
    requires var c := Compact(Trim(StripBom(x))); !Unpadded(c) && forall n: nat :: !Padded(c, n)
    ensures Normalise(x).Payload? && DecodePadded(Normalise(x).text) == Plain(Trim(StripBom(x)))
  {
    var s := Trim(StripBom(x));
    PaddedAcceptsExactly(Compact(s));
    RawAcceptsExactly(Compact(s));
    PaddedRoundTrip(s);
  }
}
