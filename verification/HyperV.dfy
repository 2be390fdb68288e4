/** PS/2 set-1 scancodes: the translation, the bounded chunks and the command that carries a chunk. */
module HyperV {
  import opened Keystrokes

  const UNKNOWN: int := -1
  const LEFT_SHIFT_MAKE: int := 0x2A
  const LEFT_SHIFT_BREAK: int := 0xAA

  function LetterOrDigit(c: char): int {
    match c
    case 'a' => 0x1E case 'b' => 0x30 case 'c' => 0x2E case 'd' => 0x20 case 'e' => 0x12
    case 'f' => 0x21 case 'g' => 0x22 case 'h' => 0x23 case 'i' => 0x17 case 'j' => 0x24
    case 'k' => 0x25 case 'l' => 0x26 case 'm' => 0x32 case 'n' => 0x31 case 'o' => 0x18
    case 'p' => 0x19 case 'q' => 0x10 case 'r' => 0x13 case 's' => 0x1F case 't' => 0x14
    case 'u' => 0x16 case 'v' => 0x2F case 'w' => 0x11 case 'x' => 0x2D case 'y' => 0x15
    case 'z' => 0x2C
    case '0' => 0x0B case '1' => 0x02 case '2' => 0x03 case '3' => 0x04 case '4' => 0x05
    case '5' => 0x06 case '6' => 0x07 case '7' => 0x08 case '8' => 0x09 case '9' => 0x0A
    case _ => UNKNOWN
  }

  /** The make code of an unshifted token. */
  function MakeCode(token: string): int {
    if |token| == 1 then LetterOrDigit(token[0])
    else match token
    case "ret" => 0x1C
    case "spc" => 0x39
    case "slash" => 0x35
    case "dot" => 0x34
    case "comma" => 0x33
    case "semicolon" => 0x27
    case "equal" => 0x0D
    case "minus" => 0x0C
    case "apostrophe" => 0x28
    case "grave_accent" => 0x29
    case _ => UNKNOWN
  }

  /** The make code under a "shift-" prefix: one character, or one of the listed names. */
  function ShiftedMakeCode(bare: string): int {
    if |bare| == 1 then MakeCode(bare)
    else match bare
    case "semicolon" => MakeCode(bare)
    case "minus" => MakeCode(bare)
    case "equal" => MakeCode(bare)
    case "slash" => MakeCode(bare)
    case "apostrophe" => MakeCode(bare)
    case "grave_accent" => MakeCode(bare)
    case _ => UNKNOWN
  }

  function BreakCode(make: int): int { if make < 0x80 then make + 0x80 else make }

  function Scancodes(token: string): seq<int> {
    if SHIFT <= token then
      var sc := ShiftedMakeCode(token[|SHIFT|..]);
      if sc == UNKNOWN then [] else [LEFT_SHIFT_MAKE, sc, BreakCode(sc), LEFT_SHIFT_BREAK]
    else
      var sc := MakeCode(token);
      if sc == UNKNOWN then [] else [sc, BreakCode(sc)]
  }

  method BuildScancodes(keys: seq<string>) returns (codes: seq<int>)
    ensures codes == Emit(Scancodes, keys)
  {
    codes := [];
    for i := 0 to |keys|
      invariant codes == Emit(Scancodes, keys[..i])
    {
      EmitConcat(Scancodes, keys[..i], [keys[i]]);
      assert keys[..i + 1] == keys[..i] + [keys[i]];
      assert [keys[i]][1..] == [];
      assert Emit(Scancodes, [keys[i]]) == Scancodes(keys[i]) + [];
      codes := codes + Scancodes(keys[i]);
    }
    assert keys[..|keys|] == keys;
  }

  // ---- a set-1 keyboard controller, row by row ----

  function PlainOf(make: int): string {
    if 0x02 <= make <= 0x0D then ["1234567890-="[make - 0x02]]
    else if 0x10 <= make <= 0x1B then ["qwertyuiop[]"[make - 0x10]]
    else if make == 0x1C then "\n"
    else if 0x1E <= make <= 0x29 then ["asdfghjkl;'`"[make - 0x1E]]
    else if make == 0x2B then "\\"
    else if 0x2C <= make <= 0x35 then ["zxcvbnm,./"[make - 0x2C]]
    else if make == 0x39 then " "
    else ""
  }

  function Receive(k: Keyboard, code: int): Keyboard {
    if code == LEFT_SHIFT_MAKE then k.(shift := true)
    else if code == LEFT_SHIFT_BREAK then k.(shift := false)
    else if code < 0x80 then Press(k, code, PlainOf(code))
    else Release(k, code - 0x80)
  }

  /** Every key the tokens name is in the table, at its place on the keyboard. */
  lemma KeyKnown(p: char)
    requires IsKey(p)
    ensures 0 <= MakeCode(BaseName(p)) < 0x80 && MakeCode(BaseName(p)) != LEFT_SHIFT_MAKE
    ensures PlainOf(MakeCode(BaseName(p))) == [p]
  {
  }

  lemma ShiftedKeyKnown(p: char)
    requires IsKey(p) && p !in " .,"
    ensures ShiftedMakeCode(BaseName(p)) == MakeCode(BaseName(p))
  {
  }

  lemma TapTypes(p: char)
    requires IsKey(p)
    ensures Types(Receive, Scancodes, BaseName(p), p)
  {
    KeyKnown(p);
    BaseNameShape(p);
    TapPlays(MakeCode(BaseName(p)), p, BaseName(p));
  }

  lemma TapPlays(sc: int, c: char, token: string)
    requires 0 <= sc < 0x80 && sc != LEFT_SHIFT_MAKE && PlainOf(sc) == [c]
    requires Scancodes(token) == [sc, BreakCode(sc)]
    ensures Types(Receive, Scancodes, token, c)
  {
    forall text ensures Play(Receive, Idle(text), Scancodes(token)) == Idle(text + [c]) {
      var k1 := Receive(Idle(text), sc);
      var k2 := Receive(k1, BreakCode(sc));
      assert Scancodes(token)[1..] == [BreakCode(sc)];
      assert [BreakCode(sc)][1..] == [];
      assert Play(Receive, k2, []) == k2;
      assert Play(Receive, k1, [BreakCode(sc)]) == k2;
    }
  }

  lemma ShiftTapTypes(p: char)
    requires IsKey(p) && p !in " .,"
    ensures Types(Receive, Scancodes, SHIFT + BaseName(p), Shifted(p))
  {
    KeyKnown(p);
    ShiftedKeyKnown(p);
    BaseNameShape(p);
    ShiftTapPlays(MakeCode(BaseName(p)), p, SHIFT + BaseName(p));
  }

  lemma ShiftTapPlays(sc: int, plain: char, token: string)
    requires 0 <= sc < 0x80 && sc != LEFT_SHIFT_MAKE && PlainOf(sc) == [plain]
    requires Scancodes(token) == [LEFT_SHIFT_MAKE, sc, BreakCode(sc), LEFT_SHIFT_BREAK]
    ensures Types(Receive, Scancodes, token, Shifted(plain))
  {
    forall text ensures Play(Receive, Idle(text), Scancodes(token)) == Idle(text + [Shifted(plain)]) {
      var codes := Scancodes(token);
      var k1 := Receive(Idle(text), LEFT_SHIFT_MAKE);
      var k2 := Receive(k1, sc);
      var k3 := Receive(k2, BreakCode(sc));
      var k4 := Receive(k3, LEFT_SHIFT_BREAK);
      assert codes[1..] == [sc, BreakCode(sc), LEFT_SHIFT_BREAK];
      assert codes[1..][1..] == [BreakCode(sc), LEFT_SHIFT_BREAK];
      assert codes[1..][1..][1..] == [LEFT_SHIFT_BREAK];
      assert codes[1..][1..][1..][1..] == [];
      assert Play(Receive, k4, []) == k4;
      assert Play(Receive, k3, [LEFT_SHIFT_BREAK]) == k4;
      assert Play(Receive, k2, [BreakCode(sc), LEFT_SHIFT_BREAK]) == k4;
      assert Play(Receive, k1, codes[1..]) == k4;
    }
  }

  lemma CharTypes(c: char)
    requires Typeable(c)
    ensures Types(Receive, Scancodes, Token(c), c)
  {
    TokenParts(c);
    if NeedsShift(c) {
      ShiftTapTypes(PlainKey(c));
    } else {
      TapTypes(PlainKey(c));
    }
  }

  lemma EnterTypes()
    ensures Types(Receive, Scancodes, "ret", '\n')
  {
    assert "ret"[0] != SHIFT[0];
    TapPlays(0x1C, '\n', "ret");
  }

  /** What a guest receives from the scancodes of a text is the text without its unmapped characters, and
      nothing is left held down. */
  lemma ScancodesMeanText(s: string)
    ensures Play(Receive, Idle(""), Emit(Scancodes, Tokens(s))) == Idle(Typed(s))
  {
    forall c | Typeable(c) ensures Types(Receive, Scancodes, Token(c), c) {
      CharTypes(c);
    }
    TypesText(Receive, Scancodes, s, "");
    assert "" + Typed(s) == Typed(s);
  }

  // ---- chunks ----

  const MAX_PER_CALL: nat := 384

  function Flatten(chunks: seq<seq<int>>): seq<int> {
    if chunks == [] then [] else chunks[0] + Flatten(chunks[1..])
  }

  lemma {:induction false} FlattenSnoc(chunks: seq<seq<int>>, c: seq<int>)
    ensures Flatten(chunks + [c]) == Flatten(chunks) + c
  {
    if chunks == [] {
      assert [c][1..] == [];
      assert chunks + [c] == [c];
    } else {
      assert (chunks + [c])[1..] == chunks[1..] + [c];
      FlattenSnoc(chunks[1..], c);
    }
  }

  /** The chunk loop: in order, nothing lost, each chunk between one and 384 codes. */
  method SendKeys(keys: seq<string>) returns (chunks: seq<seq<int>>)
    ensures Flatten(chunks) == Emit(Scancodes, keys)
    ensures forall k | 0 <= k < |chunks| :: 1 <= |chunks[k]| <= MAX_PER_CALL
  {
    var codes := BuildScancodes(keys);
    chunks := [];
    var start := 0;
    while start < |codes|
      invariant start <= |codes|
      invariant Flatten(chunks) == codes[..start]
      invariant forall k | 0 <= k < |chunks| :: 1 <= |chunks[k]| <= MAX_PER_CALL
    {
      var end := if start + MAX_PER_CALL > |codes| then |codes| else start + MAX_PER_CALL;
      FlattenSnoc(chunks, codes[start..end]);
      assert codes[..end] == codes[..start] + codes[start..end];
      chunks := chunks + [codes[start..end]];
      start := end;
    }
    assert codes[..|codes|] == codes;
  }

  // ---- the command carrying one chunk ----

  function HexDigit(n: nat): char
    requires n < 16
  {
    "0123456789ABCDEF"[n]
  }

  function HexByte(b: int): string
    requires 0 <= b < 256
  {
    "0x" + [HexDigit(b / 16), HexDigit(b % 16)]
  }

  predicate Bytes(codes: seq<int>) {
    forall k | 0 <= k < |codes| :: 0 <= codes[k] < 256
  }

  function CommaList(codes: seq<int>): string
    requires Bytes(codes)
  {
    if codes == [] then ""
    else if |codes| == 1 then HexByte(codes[0])
    else HexByte(codes[0]) + "," + CommaList(codes[1..])
  }

  const ARRAY_OPEN := "[byte[]]@("

  /** The byte-array literal, built left to right with a comma before every element but the first. */
  method RenderArray(codes: seq<int>) returns (text: string)
    requires Bytes(codes)
    ensures text == ARRAY_OPEN + CommaList(codes) + ")"
    ensures |text| == 11 + (if codes == [] then 0 else 5 * |codes| - 1)
  {
    text := ARRAY_OPEN;
    ghost var list := "";
    for i := 0 to |codes|
      invariant list == CommaList(codes[..i])
      invariant text == ARRAY_OPEN + list
    {
      CommaListSnoc(codes[..i], codes[i]);
      assert codes[..i + 1] == codes[..i] + [codes[i]];
      ghost var more := (if i > 0 then "," else "") + HexByte(codes[i]);
      if i > 0 {
        text := text + ",";
      }
      text := text + HexByte(codes[i]);
      assert text == ARRAY_OPEN + (list + more);
      list := list + more;
    }
    assert codes[..|codes|] == codes;
    CommaListLength(codes);
    text := text + ")";
  }

  lemma {:induction false} CommaListSnoc(codes: seq<int>, b: int)
    requires Bytes(codes) && 0 <= b < 256
    ensures Bytes(codes + [b])
    ensures CommaList(codes + [b]) == if codes == [] then HexByte(b) else CommaList(codes) + "," + HexByte(b)
  {
    if |codes| > 1 {
      assert (codes + [b])[1..] == codes[1..] + [b];
      CommaListSnoc(codes[1..], b);
    } else if |codes| == 1 {
      assert (codes + [b])[1..] == [b];
    }
  }

  lemma {:induction false} CommaListLength(codes: seq<int>)
    requires Bytes(codes)
    ensures |CommaList(codes)| == if codes == [] then 0 else 5 * |codes| - 1
  {
    if |codes| > 1 {
      CommaListLength(codes[1..]);
    }
  }

  /** Reading the literal back: two hexadecimal digits after each "0x". */
  function HexValue(c: char): int {
    if '0' <= c <= '9' then c as int - '0' as int else if 'A' <= c <= 'F' then c as int - 'A' as int + 10 else -1
  }

  function ParseList(text: string): seq<int> {
    if |text| < 4 then []
    else [HexValue(text[2]) * 16 + HexValue(text[3])] + (if |text| < 5 then [] else ParseList(text[5..]))
  }

  lemma HexByteParsesBack(b: int, rest: string)
    requires 0 <= b < 256
    ensures ParseList(HexByte(b)) == [b]
    ensures ParseList(HexByte(b) + "," + rest) == [b] + ParseList(rest)
  {
    assert HexValue(HexDigit(b / 16)) == b / 16 && HexValue(HexDigit(b % 16)) == b % 16;
    assert (HexByte(b) + "," + rest)[5..] == rest;
  }

  lemma {:induction false} ListParsesBack(codes: seq<int>)
    requires Bytes(codes)
    ensures ParseList(CommaList(codes)) == codes
  {
    if codes != [] {
      assert codes == [codes[0]] + codes[1..];
      HexByteParsesBack(codes[0], CommaList(codes[1..]));
      if |codes| > 1 {
        ListParsesBack(codes[1..]);
      }
    }
  }

  /** Characters of the script around the VM id and the array literal. */
  const SCRIPT_FIXED: nat := 512

  /** UTF-16 doubles the script, base64 turns every three bytes into four characters. */
  function EncodedLength(script: nat): nat { 4 * ((2 * script + 2) / 3) }

  function CommandLength(launcher: nat, preamble: nat, vmId: nat, array_: nat): nat {
    launcher + EncodedLength(preamble + SCRIPT_FIXED + vmId + array_)
  }

  predicate Fits(codes: seq<int>, launcher: nat, preamble: nat, vmId: nat)
    requires Bytes(codes)
  {
    CommandLength(launcher, preamble, vmId, |ARRAY_OPEN + CommaList(codes) + ")"|) < 8192
  }

  /** A full chunk for a GUID-named VM fits cmd.exe's limit, with room for the remote shell's own launcher and
      preamble. */
  lemma ChunkFitsCommandLine(codes: seq<int>, launcher: nat, preamble: nat, vmId: nat)
    requires Bytes(codes) && |codes| <= MAX_PER_CALL
    requires launcher <= 64 && preamble <= 64 && vmId <= 64
    ensures CommandLength(launcher, preamble, vmId, |ARRAY_OPEN + CommaList(codes) + ")"|) < 8192
  {
    LargestChunk(codes);
    assert Fits(codes, launcher, preamble, vmId);
  }

  /** Under these bounds a chunk is sure to fit exactly up to 479 codes. */
  lemma LargestChunk(codes: seq<int>)
    requires Bytes(codes)
    ensures (forall launcher: nat, preamble: nat, vmId: nat | launcher <= 64 && preamble <= 64 && vmId <= 64 ::
               Fits(codes, launcher, preamble, vmId))
        <==> |codes| <= 479
  {
    CommaListLength(codes);
    var array_ := |ARRAY_OPEN + CommaList(codes) + ")"|;
    assert array_ == if codes == [] then 11 else 10 + 5 * |codes|;
    assert Fits(codes, 64, 64, 64) <==> CommandLength(64, 64, 64, array_) < 8192;
  }
}
