/** RFB key events with an explicit Shift around the base key. */
module Vnc {
  import opened Keystrokes

  const SHIFT_KEYSYM: int := 0xffe1
  const ENTER_KEYSYM: int := 0xff0d
  const UNKNOWN: int := -1

  datatype KeyEvent = KeyEvent(keysym: int, down: bool)

  /** Keysyms of the base keys; for printable characters the code point itself. */
  function Keysym(name: string): int {
    if |name| == 1 && (Lower(name[0]) || Digit(name[0])) then name[0] as int
    else match name
    case "ret" => ENTER_KEYSYM
    case "spc" => ' ' as int
    case "slash" => '/' as int
    case "dot" => '.' as int
    case "comma" => ',' as int
    case "semicolon" => ';' as int
    case "equal" => '=' as int
    case "minus" => '-' as int
    case "apostrophe" => '\'' as int
    case "grave_accent" => '`' as int
    case _ => UNKNOWN
  }

  function Resolve(token: string): (int, bool) {
    if SHIFT <= token then (Keysym(token[|SHIFT|..]), true) else (Keysym(token), false)
  }

  function Events(token: string): seq<KeyEvent> {
    var (keysym, shift) := Resolve(token);
    var tap := [KeyEvent(keysym, true), KeyEvent(keysym, false)];
    if keysym == UNKNOWN then []
    else if shift then [KeyEvent(SHIFT_KEYSYM, true)] + tap + [KeyEvent(SHIFT_KEYSYM, false)]
    else tap
  }

  /** The event loop, one event at a time. */
  method SendKeys(keys: seq<string>) returns (events: seq<KeyEvent>)
    ensures events == Emit(Events, keys)
  {
    events := [];
    for i := 0 to |keys|
      invariant events == Emit(Events, keys[..i])
    {
      EmitConcat(Events, keys[..i], [keys[i]]);
      assert keys[..i + 1] == keys[..i] + [keys[i]];
      assert [keys[i]][1..] == [];
      assert Emit(Events, [keys[i]]) == Events(keys[i]) + [];
      ghost var before := events;
      var (keysym, shift) := Resolve(keys[i]);
      if keysym == UNKNOWN { continue; }
      if shift {
        events := events + [KeyEvent(SHIFT_KEYSYM, true)];
      }
      events := events + [KeyEvent(keysym, true)];
      events := events + [KeyEvent(keysym, false)];
      if shift {
        events := events + [KeyEvent(SHIFT_KEYSYM, false)];
      }
      assert events == before + Events(keys[i]);
    }
    assert keys[..|keys|] == keys;
  }

  // ---- the wire format of one event ----

  /** Message type 4, the down flag, two bytes of padding, the keysym in big-endian order. */
  method WriteKeyEvent(e: KeyEvent) returns (msg: array<int>)
    requires 0 <= e.keysym < 0x1_0000_0000
    ensures fresh(msg) && msg.Length == 8 && forall k | 0 <= k < 8 :: 0 <= msg[k] < 256
    ensures msg[0] == 4 && msg[2] == 0 && msg[3] == 0
    ensures DecodeKeyEvent(msg[..]) == e
  {
    msg := new int[8](_ => 0);
    msg[0] := 4;
    msg[1] := if e.down then 1 else 0;
    msg[4] := e.keysym / 0x100_0000;
    msg[5] := e.keysym / 0x1_0000 % 0x100;
    msg[6] := e.keysym / 0x100 % 0x100;
    msg[7] := e.keysym % 0x100;
    BigEndianSplit(e.keysym);
  }

  function DecodeKeyEvent(msg: seq<int>): KeyEvent
    requires |msg| == 8
  {
    KeyEvent(((msg[4] * 0x100 + msg[5]) * 0x100 + msg[6]) * 0x100 + msg[7], msg[1] != 0)
  }

  lemma BigEndianSplit(n: int)
    requires 0 <= n < 0x1_0000_0000
    ensures n == ((n / 0x100_0000 * 0x100 + n / 0x1_0000 % 0x100) * 0x100 + n / 0x100 % 0x100) * 0x100 + n % 0x100
  {
    assert n / 0x100 / 0x100 == n / 0x1_0000;
    assert n / 0x1_0000 / 0x100 == n / 0x100_0000;
  }

  // ---- a VNC server in front of a US keyboard ----

  function PlainOf(keysym: int): string {
    if keysym == ENTER_KEYSYM then "\n" else if 0x20 <= keysym < 0x7f then [keysym as char] else ""
  }

  function Receive(k: Keyboard, e: KeyEvent): Keyboard {
    if e.keysym == SHIFT_KEYSYM then k.(shift := e.down)
    else if e.down then Press(k, e.keysym, PlainOf(e.keysym))
    else Release(k, e.keysym)
  }

  lemma TapTypes(token: string, c: char)
    requires !(SHIFT <= token) && PlainOf(Keysym(token)) == [c]
    ensures Types(Receive, Events, token, c)
  {
    var sym := Keysym(token);
    var up := KeyEvent(sym, false);
    forall text ensures Play(Receive, Idle(text), Events(token)) == Idle(text + [c]) {
      var k1 := Receive(Idle(text), KeyEvent(sym, true));
      var k2 := Receive(k1, up);
      assert Events(token)[1..] == [up] && [up][1..] == [];
      assert Play(Receive, k2, []) == k2;
      assert Play(Receive, k1, [up]) == k2;
    }
  }

  lemma ShiftTapTypes(name: string, plain: char, c: char)
    requires PlainOf(Keysym(name)) == [plain] && Shifted(plain) == c
    ensures Types(Receive, Events, SHIFT + name, c)
  {
    var token := SHIFT + name;
    assert token[|SHIFT|..] == name;
    var sym := Keysym(name);
    var down, up, unshift := KeyEvent(sym, true), KeyEvent(sym, false), KeyEvent(SHIFT_KEYSYM, false);
    forall text ensures Play(Receive, Idle(text), Events(token)) == Idle(text + [c]) {
      var k1 := Receive(Idle(text), KeyEvent(SHIFT_KEYSYM, true));
      var k2 := Receive(k1, down);
      var k3 := Receive(k2, up);
      var k4 := Receive(k3, unshift);
      assert Events(token)[1..] == [down, up, unshift];
      assert [down, up, unshift][1..] == [up, unshift] && [up, unshift][1..] == [unshift] && [unshift][1..] == [];
      assert Play(Receive, k4, []) == k4;
      assert Play(Receive, k3, [unshift]) == k4;
      assert Play(Receive, k2, [up, unshift]) == k4;
      assert Play(Receive, k1, [down, up, unshift]) == k4;
    }
  }

  lemma KeyKnown(p: char)
    requires IsKey(p)
    ensures PlainOf(Keysym(BaseName(p))) == [p]
  {
  }

  lemma CharTypes(c: char)
    requires Typeable(c)
    ensures Types(Receive, Events, Token(c), c)
  {
    TokenParts(c);
    var p := PlainKey(c);
    KeyKnown(p);
    BaseNameShape(p);
    if NeedsShift(c) {
      ShiftTapTypes(BaseName(p), p, c);
    } else {
      TapTypes(BaseName(p), c);
    }
  }

  lemma EnterTypes()
    ensures Types(Receive, Events, "ret", '\n')
  {
    assert "ret"[0] != SHIFT[0];
    TapTypes("ret", '\n');
  }

  /** The key events of a text mean the text without its unmapped characters; every key and Shift is
      released. */
  lemma EventsMeanText(s: string)
    ensures Play(Receive, Idle(""), Emit(Events, Tokens(s))) == Idle(Typed(s))
  {
    forall c | Typeable(c) ensures Types(Receive, Events, Token(c), c) {
      CharTypes(c);
    }
    TypesText(Receive, Events, s, "");
    assert "" + Typed(s) == Typed(s);
  }
}
