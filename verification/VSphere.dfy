/** USB HID usages: one event per token, Shift as a modifier of the event. */
module VSphere {
  import opened Keystrokes

  /** A key event: the encoded key code and whether left Shift is held. */
  datatype HidEvent = HidEvent(code: int, leftShift: bool)

  const UNKNOWN: int := -1

  const KEYBOARD_PAGE: int := 0x0007

  /** The encoded code carries the usage in the upper half and the keyboard page in the lower. */
  function HidCode(usage: int): int { usage * 0x10000 + KEYBOARD_PAGE }

  /** What a keyboard makes of a code: the usage when the page is its own. */
  function UsageOf(code: int): int { if code % 0x10000 == KEYBOARD_PAGE then code / 0x10000 else UNKNOWN }

  lemma HidCodeRoundTrip(usage: int)
    ensures UsageOf(HidCode(usage)) == usage
  {
  }

  function Plain(usage: int): HidEvent { HidEvent(HidCode(usage), false) }

  function WithShift(usage: int): HidEvent { HidEvent(HidCode(usage), true) }

  /** Usages of the keys with one-character names. */
  function CharUsage(c: char): int {
    if Lower(c) then 0x04 + (c as int - 'a' as int)
    else if '1' <= c <= '9' then 0x1e + (c as int - '1' as int)
    else if c == '0' then 0x27
    else UNKNOWN
  }

  /** Usages of the keys by their unshifted names. */
  function KeyUsage(name: string): int {
    if |name| == 1 then CharUsage(name[0])
    else match name
    case "ret" => 0x28
    case "esc" => 0x29
    case "backspace" => 0x2a
    case "tab" => 0x2b
    case "spc" => 0x2c
    case "minus" => 0x2d
    case "equal" => 0x2e
    case "bracket_left" => 0x2f
    case "bracket_right" => 0x30
    case "backslash" => 0x31
    case "semicolon" => 0x33
    case "apostrophe" => 0x34
    case "grave_accent" => 0x35
    case "comma" => 0x36
    case "dot" => 0x37
    case "slash" => 0x38
    case _ => UNKNOWN
  }

  /** The names the table also lists under the "shift-" prefix. */
  predicate HasShifted(name: string) {
    || (|name| == 1 && (Lower(name[0]) || Digit(name[0])))
    || name == "minus" || name == "equal" || name == "semicolon" || name == "apostrophe" || name == "slash"
    || name == "comma" || name == "dot" || name == "grave_accent"
  }

  function ToLower(s: string): string {
    seq(|s|, i requires 0 <= i < |s| => if Upper(s[i]) then s[i] - 'A' + 'a' else s[i])
  }

  /** The table lookup: [] for an unknown key. */
  function Lookup(token: string): seq<HidEvent> {
    if SHIFT <= token then
      if HasShifted(token[|SHIFT|..]) then [WithShift(KeyUsage(token[|SHIFT|..]))] else []
    else if KeyUsage(token) == UNKNOWN then [] else [Plain(KeyUsage(token))]
  }

  function Events(token: string): seq<HidEvent> { Lookup(ToLower(token)) }

  // ---- the table's letters and digits ----

  /** The n characters from first on. */
  function From(first: char, n: nat): string
    requires first as int + n <= 0x100
  {
    seq(n, i requires 0 <= i < n => (first as int + i) as char)
  }

  /** A table with an entry added for each of these letters or digits, under a prefix. */
  function Added(table: map<string, HidEvent>, prefix: string, shift: bool, cs: string): map<string, HidEvent>
    decreases |cs|
  {
    if cs == "" then table
    else
      var last := cs[|cs| - 1];
      Added(table, prefix, shift, cs[..|cs| - 1])[prefix + [last] := HidEvent(HidCode(CharUsage(last)), shift)]
  }

  lemma OneMore(table: map<string, HidEvent>, prefix: string, shift: bool, cs: string, c: char)
    ensures Added(table, prefix, shift, cs + [c]) == Added(table, prefix, shift, cs)[prefix + [c] := HidEvent(HidCode(CharUsage(c)), shift)]
  {
    assert (cs + [c])[..|cs|] == cs;
  }

  /** A loop over the letters. */
  method AddLetters(before: map<string, HidEvent>, prefix: string, shift: bool) returns (table: map<string, HidEvent>)
    ensures table == Added(before, prefix, shift, From('a', 26))
  {
    table := before;
    for i := 0 to 26
      invariant table == Added(before, prefix, shift, From('a', i))
    {
      var c := (i + 'a' as int) as char;
      OneMore(before, prefix, shift, From('a', i), c);
      assert From('a', i + 1) == From('a', i) + [c];
      table := table[prefix + [c] := HidEvent(HidCode(0x04 + i), shift)];
    }
  }

  /** The loop over the digits, and zero after it. */
  method AddDigits(before: map<string, HidEvent>) returns (table: map<string, HidEvent>)
    ensures table == Added(before, "", false, From('1', 9) + "0")
  {
    table := before;
    for i := 1 to 10
      invariant table == Added(before, "", false, From('1', i - 1))
    {
      var c := (i + '0' as int) as char;
      OneMore(before, "", false, From('1', i - 1), c);
      assert From('1', i) == From('1', i - 1) + [c] && "" + [c] == [c];
      table := table[[c] := HidEvent(HidCode(0x1e + i - 1), false)];
    }
    OneMore(before, "", false, From('1', 9), '0');
    assert "" + ['0'] == "0";
    table := table["0" := HidEvent(HidCode(0x27), false)];
  }

  /** One assignment of a shifted key. */
  method Assign(table: map<string, HidEvent>, ghost before: map<string, HidEvent>, ghost keys: string, c: char, usage: int)
    returns (more: map<string, HidEvent>, ghost also: string)
    requires table == Added(before, SHIFT, true, keys) && usage == CharUsage(c)
    ensures also == keys + [c] && more == Added(before, SHIFT, true, also)
    ensures more == table[SHIFT + [c] := HidEvent(HidCode(usage), true)]
  {
    OneMore(before, SHIFT, true, keys, c);
    more, also := table[SHIFT + [c] := HidEvent(HidCode(usage), true)], keys + [c];
  }

  /** The symbols of the digit row, an assignment each. */
  method AddSymbols(before: map<string, HidEvent>) returns (table: map<string, HidEvent>)
    ensures table == Added(before, SHIFT, true, "1234567890")
  {
    ghost var keys := "";
    table := before;
    table, keys := Assign(table, before, keys, '1', 0x1e);
    table, keys := Assign(table, before, keys, '2', 0x1f);
    table, keys := Assign(table, before, keys, '3', 0x20);
    table, keys := Assign(table, before, keys, '4', 0x21);
    table, keys := Assign(table, before, keys, '5', 0x22);
    table, keys := Assign(table, before, keys, '6', 0x23);
    table, keys := Assign(table, before, keys, '7', 0x24);
    table, keys := Assign(table, before, keys, '8', 0x25);
    table, keys := Assign(table, before, keys, '9', 0x26);
    table, keys := Assign(table, before, keys, '0', 0x27);
    assert keys == "1234567890";
  }

  /** The letter and digit entries of the table, plain and shifted: the loops and assignments in order. */
  method AlphanumericEntries() returns (table: map<string, HidEvent>)
    ensures table == Alphanumerics()
  {
    table := AddLetters(map[], "", false);
    table := AddLetters(table, SHIFT, true);
    table := AddDigits(table);
    table := AddSymbols(table);
  }

  function Alphanumerics(): map<string, HidEvent> {
    var letters := Added(Added(map[], "", false, From('a', 26)), SHIFT, true, From('a', 26));
    Added(Added(letters, "", false, From('1', 9) + "0"), SHIFT, true, "1234567890")
  }

  function Answer(table: map<string, HidEvent>, t: string): seq<HidEvent> { if t in table then [table[t]] else [] }

  predicate SameAt(a: map<string, HidEvent>, b: map<string, HidEvent>, t: string) { Answer(a, t) == Answer(b, t) }

  lemma {:induction false} AddedAnswers(table: map<string, HidEvent>, prefix: string, shift: bool, cs: string, c: char)
    ensures var t, more := prefix + [c], Added(table, prefix, shift, cs);
      if c in cs then Answer(more, t) == [HidEvent(HidCode(CharUsage(c)), shift)]
      else SameAt(table, more, t)
    decreases |cs|
  {
    if cs != "" {
      var last := cs[|cs| - 1];
      AddedAnswers(table, prefix, shift, cs[..|cs| - 1], c);
      assert (prefix + [c])[|prefix|] == c && (prefix + [last])[|prefix|] == last;
    }
  }

  lemma {:induction false} OtherLengthUntouched(table: map<string, HidEvent>, prefix: string, shift: bool, cs: string, t: string)
    requires |t| != |prefix| + 1
    ensures SameAt(table, Added(table, prefix, shift, cs), t)
    decreases |cs|
  {
    if cs != "" {
      OtherLengthUntouched(table, prefix, shift, cs[..|cs| - 1], t);
    }
  }

  /** For every name of one character, with or without the prefix, the entries answer as the lookup: no letter
      or digit is missing and no other such name is there. */
  lemma EntriesAnswerLookup(c: char)
    ensures Answer(Alphanumerics(), [c]) == Lookup([c])
    ensures Answer(Alphanumerics(), SHIFT + [c]) == Lookup(SHIFT + [c])
  {
    var ls, ds, symbols := From('a', 26), From('1', 9) + "0", "1234567890";
    Stages(map[], "", SHIFT, ls, ds, symbols, c);
    assert "" + [c] == [c];
    InRun('a', 26, c);
    DigitsListed(c);
    assert (SHIFT + [c])[|SHIFT|..] == [c];
  }

  lemma InRun(first: char, n: nat, c: char)
    requires first as int + n <= 0x100
    ensures c in From(first, n) <==> first <= c && c as int < first as int + n
  {
    if first <= c && c as int < first as int + n {
      assert From(first, n)[c as int - first as int] == c;
    }
  }

  lemma DigitsListed(c: char)
    ensures c in From('1', 9) + "0" <==> Digit(c)
    ensures c in "1234567890" <==> Digit(c)
  {
    InRun('1', 9, c);
  }

  /** Two names whose prefixes differ in length do not disturb each other. */
  lemma Stages(m: map<string, HidEvent>, p: string, q: string, ls: string, ds: string, symbols: string, c: char)
    requires |p| != |q| && m == map[]
    ensures var t := Added(Added(Added(Added(m, p, false, ls), q, true, ls), p, false, ds), q, true, symbols);
      && Answer(t, p + [c]) == (if c in ds || c in ls then [HidEvent(HidCode(CharUsage(c)), false)] else [])
      && Answer(t, q + [c]) == (if c in symbols || c in ls then [HidEvent(HidCode(CharUsage(c)), true)] else [])
  {
    var m1 := Added(m, p, false, ls);
    var m2 := Added(m1, q, true, ls);
    var m3 := Added(m2, p, false, ds);
    AddedAnswers(m, p, false, ls, c);
    OtherLengthUntouched(m1, q, true, ls, p + [c]);
    AddedAnswers(m2, p, false, ds, c);
    OtherLengthUntouched(m3, q, true, symbols, p + [c]);
    OtherLengthUntouched(m, p, false, ls, q + [c]);
    AddedAnswers(m1, q, true, ls, c);
    OtherLengthUntouched(m2, p, false, ds, q + [c]);
    AddedAnswers(m3, q, true, symbols, c);
  }

  method SendKeys(keys: seq<string>) returns (events: seq<HidEvent>)
    ensures events == Emit(Events, keys)
  {
    events := [];
    for i := 0 to |keys|
      invariant events == Emit(Events, keys[..i])
    {
      EmitConcat(Events, keys[..i], [keys[i]]);
      assert keys[..i + 1] == keys[..i] + [keys[i]];
      assert [keys[i]][1..] == [];
      assert Emit(Events, [keys[i]]) == Events(keys[i]) + [];
      events := events + Events(keys[i]);
    }
    assert keys[..|keys|] == keys;
  }

  // ---- the keyboard page of the USB HID usage tables ----

  function PlainOf(usage: int): string {
    if 0x04 <= usage <= 0x1d then ["abcdefghijklmnopqrstuvwxyz"[usage - 0x04]]
    else if 0x1e <= usage <= 0x27 then ["1234567890"[usage - 0x1e]]
    else if usage == 0x28 then "\n"
    else if usage == 0x2b then "\t"
    else if 0x2c <= usage <= 0x31 then [" -=[]\\"[usage - 0x2c]]
    else if 0x33 <= usage <= 0x38 then [";'`,./"[usage - 0x33]]
    else ""
  }

  /** A key event presses and releases the key with the modifier held around it; a code of another page
      presses a key without a character. */
  function Receive(k: Keyboard, e: HidEvent): Keyboard {
    var usage := UsageOf(e.code);
    var pressed := Press(k.(shift := e.leftShift), usage, PlainOf(usage));
    Release(pressed, usage).(shift := false)
  }

  lemma EventTypes(token: string, e: HidEvent, plain: char, c: char)
    requires Events(token) == [e] && PlainOf(UsageOf(e.code)) == [plain]
    requires c == if e.leftShift then Shifted(plain) else plain
    ensures Types(Receive, Events, token, c)
  {
    forall text ensures Play(Receive, Idle(text), Events(token)) == Idle(text + [c]) {
      assert [e][1..] == [];
      assert Play(Receive, Receive(Idle(text), e), []) == Receive(Idle(text), e);
    }
  }

  lemma KeyKnown(p: char)
    requires IsKey(p)
    ensures KeyUsage(BaseName(p)) != UNKNOWN && PlainOf(KeyUsage(BaseName(p))) == [p]
  {
    if Lower(p) || Digit(p) {
      AlphanumericKnown(p);
    } else {
      PunctuationKnown(p);
    }
  }

  lemma AlphanumericKnown(p: char)
    requires Lower(p) || Digit(p)
    ensures KeyUsage(BaseName(p)) != UNKNOWN && PlainOf(KeyUsage(BaseName(p))) == [p]
  {
  }

  lemma PunctuationKnown(p: char)
    requires IsKey(p) && !Lower(p) && !Digit(p)
    ensures KeyUsage(BaseName(p)) != UNKNOWN && PlainOf(KeyUsage(BaseName(p))) == [p]
  {
  }

  lemma ShiftedKeyKnown(p: char)
    requires IsKey(p) && p != ' '
    ensures HasShifted(BaseName(p))
  {
  }

  lemma LowerStays(s: string)
    requires forall i | 0 <= i < |s| :: !Upper(s[i])
    ensures ToLower(s) == s
  {
  }

  lemma TapTypes(p: char)
    requires IsKey(p)
    ensures Types(Receive, Events, BaseName(p), p)
  {
    KeyKnown(p);
    BaseNameShape(p);
    LowerStays(BaseName(p));
    HidCodeRoundTrip(KeyUsage(BaseName(p)));
    EventTypes(BaseName(p), Plain(KeyUsage(BaseName(p))), p, p);
  }

  lemma ShiftTapTypes(p: char)
    requires IsKey(p) && p != ' '
    ensures Types(Receive, Events, SHIFT + BaseName(p), Shifted(p))
  {
    var name := BaseName(p);
    KeyKnown(p);
    ShiftedKeyKnown(p);
    BaseNameShape(p);
    assert forall i | 0 <= i < |SHIFT + name| :: (SHIFT + name)[i] == if i < 6 then SHIFT[i] else name[i - 6];
    LowerStays(SHIFT + name);
    HidCodeRoundTrip(KeyUsage(name));
    EventTypes(SHIFT + name, WithShift(KeyUsage(name)), p, Shifted(p));
  }

  lemma CharTypes(c: char)
    requires Typeable(c)
    ensures Types(Receive, Events, Token(c), c)
  {
    TokenParts(c);
    if NeedsShift(c) {
      ShiftTapTypes(PlainKey(c));
    } else {
      TapTypes(PlainKey(c));
    }
  }

  lemma EnterTypes()
    ensures Types(Receive, Events, "ret", '\n')
  {
    assert "ret"[0] != SHIFT[0];
    LowerStays("ret");
    HidCodeRoundTrip(0x28);
    EventTypes("ret", Plain(0x28), '\n', '\n');
  }

  /** The HID events of a text mean the text without its unmapped characters. */
  lemma EventsMeanText(s: string)
    ensures Play(Receive, Idle(""), Emit(Events, Tokens(s))) == Idle(Typed(s))
  {
    forall c | Typeable(c) ensures Types(Receive, Events, Token(c), c) {
      CharTypes(c);
    }
    TypesText(Receive, Events, s, "");
    assert "" + Typed(s) == Typed(s);
  }
}
