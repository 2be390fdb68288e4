/** GRUB text to key tokens, and the meaning a keyboard gives to a stream of key events. */
module Keystrokes {

  predicate Lower(c: char) { 'a' <= c <= 'z' }

  predicate Upper(c: char) { 'A' <= c <= 'Z' }

  predicate Digit(c: char) { '0' <= c <= '9' }

  const SHIFT := "shift-"

  /** Tokens for the characters that are neither letters nor digits; "" when there is none. */
  function KeyName(c: char): string {
    match c
    case ' ' => "spc"
    case '/' => "slash"
    case '.' => "dot"
    case ',' => "comma"
    case ';' => "semicolon"
    case ':' => "shift-semicolon"
    case '=' => "equal"
    case '-' => "minus"
    case '_' => "shift-minus"
    case '+' => "shift-equal"
    case '?' => "shift-slash"
    case '&' => "shift-7"
    case '%' => "shift-5"
    case '#' => "shift-3"
    case '(' => "shift-9"
    case ')' => "shift-0"
    case '~' => "shift-grave_accent"
    case '\'' => "apostrophe"
    case '"' => "shift-apostrophe"
    case _ => ""
  }

  predicate Typeable(c: char) {
    Lower(c) || Upper(c) || Digit(c) || KeyName(c) != ""
  }

  function Token(c: char): string
    requires Typeable(c)
  {
    if Lower(c) || Digit(c) then [c]
    else if Upper(c) then SHIFT + [c - 'A' + 'a']
    else KeyName(c)
  }

  /** The characters of a text that reach the console: unmapped ones are skipped. */
  function Typed(s: string): string {
    if s == [] then [] else (if Typeable(s[0]) then [s[0]] else []) + Typed(s[1..])
  }

  function TokensOf(c: char): seq<string> {
    if Typeable(c) then [Token(c)] else []
  }

  function Tokens(s: string): seq<string> {
    if s == [] then [] else TokensOf(s[0]) + Tokens(s[1..])
  }

  method KeysForText(s: string) returns (keys: seq<string>)
    ensures keys == Tokens(s)
  {
    keys := [];
    for i := 0 to |s|
      invariant keys == Tokens(s[..i])
    {
      var c := s[i];
      TokensSnoc(s[..i], c);
      assert s[..i + 1] == s[..i] + [c];
      if Lower(c) || Digit(c) {
        keys := keys + [[c]];
      } else if Upper(c) {
        keys := keys + [SHIFT + [c - 'A' + 'a']];
      } else if KeyName(c) != "" {
        keys := keys + [KeyName(c)];
      }
    }
    assert s[..|s|] == s;
  }

  lemma TokensSnoc(s: string, c: char)
    ensures Tokens(s + [c]) == Tokens(s) + TokensOf(c)
  {
    TokensConcat(s, [c]);
    assert [c][1..] == [];
    assert Tokens([c]) == TokensOf(c) + [];
  }

  lemma {:induction false} TokensConcat(a: string, b: string)
    ensures Tokens(a + b) == Tokens(a) + Tokens(b)
  {
    if a == [] {
      assert a + b == b;
    } else {
      assert (a + b)[1..] == a[1..] + b;
      TokensConcat(a[1..], b);
    }
  }

  // ---- keyboards ----

  /** A keyboard as the firmware sees it: Shift, the keys held down and the text received so far. */
  datatype Keyboard = Keyboard(shift: bool, down: set<int>, text: string)

  function Idle(text: string): Keyboard { Keyboard(false, {}, text) }

  /** The US layout's upper half: what Shift makes of a key's plain character. */
  function Shifted(c: char): char {
    if Lower(c) then c - 'a' + 'A'
    else if Digit(c) then ")!@#$%^&*("[c as int - '0' as int]
    else match c
    case '-' => '_'
    case '=' => '+'
    case '[' => '{'
    case ']' => '}'
    case '\\' => '|'
    case ';' => ':'
    case '\'' => '"'
    case '`' => '~'
    case ',' => '<'
    case '.' => '>'
    case '/' => '?'
    case _ => c
  }

  /** Pressing a key types its character, as Shift stands; a key without a character types nothing. */
  function Press(k: Keyboard, key: int, plain: string): Keyboard {
    var typed := if plain == [] then [] else if k.shift then [Shifted(plain[0])] else [plain[0]];
    k.(down := k.down + {key}, text := k.text + typed)
  }

  function Release(k: Keyboard, key: int): Keyboard { k.(down := k.down - {key}) }

  function Play<E>(step: (Keyboard, E) -> Keyboard, k: Keyboard, events: seq<E>): Keyboard
    decreases |events|
  {
    if events == [] then k else Play(step, step(k, events[0]), events[1..])
  }

  /** A back end translates token by token. */
  function Emit<E>(one: string -> seq<E>, keys: seq<string>): seq<E> {
    if keys == [] then [] else one(keys[0]) + Emit(one, keys[1..])
  }

  lemma {:induction false} PlayConcat<E>(step: (Keyboard, E) -> Keyboard, k: Keyboard, a: seq<E>, b: seq<E>)
    ensures Play(step, k, a + b) == Play(step, Play(step, k, a), b)
    decreases |a|
  {
    if a == [] {
      assert a + b == b;
    } else {
      assert (a + b)[0] == a[0] && (a + b)[1..] == a[1..] + b;
      PlayConcat(step, step(k, a[0]), a[1..], b);
    }
  }

  lemma {:induction false} EmitConcat<E>(one: string -> seq<E>, a: seq<string>, b: seq<string>)
    ensures Emit(one, a + b) == Emit(one, a) + Emit(one, b)
  {
    if a == [] {
      assert a + b == b;
    } else {
      assert (a + b)[0] == a[0] && (a + b)[1..] == a[1..] + b;
      EmitConcat(one, a[1..], b);
    }
  }

  /** Sent to an idle keyboard, a token types exactly c and leaves every key and Shift released. */
  ghost predicate Types<E>(step: (Keyboard, E) -> Keyboard, one: string -> seq<E>, token: string, c: char) {
    forall text :: Play(step, Idle(text), one(token)) == Idle(text + [c])
  }

  /** One token more: the first character is typed, the rest follows on an idle keyboard. */
  lemma TypesFirst<E>(step: (Keyboard, E) -> Keyboard, one: string -> seq<E>, c: char, keys: seq<string>, text: string)
    requires Typeable(c) && Types(step, one, Token(c), c)
    ensures Play(step, Idle(text), Emit(one, [Token(c)] + keys)) == Play(step, Idle(text + [c]), Emit(one, keys))
  {
    var all := [Token(c)] + keys;
    assert all[0] == Token(c) && all[1..] == keys;
    PlayConcat(step, Idle(text), one(Token(c)), Emit(one, keys));
  }

  lemma TokensStep(s: string)
    requires s != []
    ensures Typeable(s[0]) ==> Tokens(s) == [Token(s[0])] + Tokens(s[1..]) && Typed(s) == [s[0]] + Typed(s[1..])
    ensures !Typeable(s[0]) ==> Tokens(s) == Tokens(s[1..]) && Typed(s) == Typed(s[1..])
  {
  }

  /** A character and what follows it. */
  lemma TypesThen<E>(step: (Keyboard, E) -> Keyboard, one: string -> seq<E>, c: char, keys: seq<string>, typed: string, text: string)
    requires Typeable(c) && Types(step, one, Token(c), c)
    requires Play(step, Idle(text + [c]), Emit(one, keys)) == Idle(text + [c] + typed)
    ensures Play(step, Idle(text), Emit(one, [Token(c)] + keys)) == Idle(text + ([c] + typed))
  {
    TypesFirst(step, one, c, keys, text);
    assert text + [c] + typed == text + ([c] + typed);
  }

  /** A back end that types every character correctly types every text, less its unmapped characters. */
  lemma {:induction false} TypesText<E>(step: (Keyboard, E) -> Keyboard, one: string -> seq<E>, s: string, text: string)
    requires forall c | Typeable(c) :: Types(step, one, Token(c), c)
    ensures Play(step, Idle(text), Emit(one, Tokens(s))) == Idle(text + Typed(s))
  {
    if s == [] {
      assert text + [] == text;
    } else {
      var c, rest := s[0], s[1..];
      TokensStep(s);
      if Typeable(c) {
        TypesText(step, one, rest, text + [c]);
        TypesThen(step, one, c, Tokens(rest), Typed(rest), text);
      } else {
        TypesText(step, one, rest, text);
      }
    }
  }

  // ---- tokens by key ----

  predicate NeedsShift(c: char) { Upper(c) || c in ":_+?&%#()~\"" }

  /** The keys the tokens name, by their plain characters. */
  predicate IsKey(p: char) { Lower(p) || Digit(p) || p in " /.,;=-'`" }

  /** The key a character sits on. */
  function PlainKey(c: char): char {
    if Upper(c) then c - 'A' + 'a'
    else match c
    case ':' => ';'
    case '_' => '-'
    case '+' => '='
    case '?' => '/'
    case '&' => '7'
    case '%' => '5'
    case '#' => '3'
    case '(' => '9'
    case ')' => '0'
    case '~' => '`'
    case '"' => '\''
    case _ => c
  }

  /** The key's name. */
  function BaseName(p: char): string
    requires IsKey(p)
  {
    if Lower(p) || Digit(p) then [p]
    else match p
    case ' ' => "spc"
    case '/' => "slash"
    case '.' => "dot"
    case ',' => "comma"
    case ';' => "semicolon"
    case '=' => "equal"
    case '-' => "minus"
    case '\'' => "apostrophe"
    case _ => "grave_accent"
  }

  lemma KeyOfChar(c: char)
    requires Typeable(c)
    ensures IsKey(PlainKey(c))
    ensures c == if NeedsShift(c) then Shifted(PlainKey(c)) else PlainKey(c)
  {
    if Lower(c) || Upper(c) || Digit(c) {
      KeyOfAlphanumeric(c);
    } else {
      KeyOfPunctuation(c);
    }
  }

  lemma KeyOfAlphanumeric(c: char)
    requires Lower(c) || Upper(c) || Digit(c)
    ensures IsKey(PlainKey(c))
    ensures c == if NeedsShift(c) then Shifted(PlainKey(c)) else PlainKey(c)
  {
  }

  lemma KeyOfPunctuation(c: char)
    requires Typeable(c) && !Lower(c) && !Upper(c) && !Digit(c)
    ensures IsKey(PlainKey(c))
    ensures c == if NeedsShift(c) then Shifted(PlainKey(c)) else PlainKey(c)
  {
  }

  lemma DigitSpelling(c: char)
    requires c in "&%#()"
    ensures Token(c) == SHIFT + BaseName(PlainKey(c))
  {
  }

  lemma NameSpelling(c: char)
    requires c in ":_+?~\""
    ensures Token(c) == SHIFT + BaseName(PlainKey(c))
  {
    if c in ":_+" {
      EarlierNames(c);
    } else {
      LaterNames(c);
    }
  }

  lemma EarlierNames(c: char)
    requires c in ":_+"
    ensures Token(c) == SHIFT + BaseName(PlainKey(c))
  {
  }

  lemma LaterNames(c: char)
    requires c in "?~\""
    ensures Token(c) == SHIFT + BaseName(PlainKey(c))
  {
  }

  /** Every token is a key's name, under the prefix exactly when the character needs Shift. */
  lemma TokenParts(c: char)
    requires Typeable(c)
    ensures IsKey(PlainKey(c))
    ensures Token(c) == if NeedsShift(c) then SHIFT + BaseName(PlainKey(c)) else BaseName(PlainKey(c))
    ensures c == if NeedsShift(c) then Shifted(PlainKey(c)) else PlainKey(c)
  {
    KeyOfChar(c);
    if c in "&%#()" {
      DigitSpelling(c);
    } else if c in ":_+?~\"" {
      NameSpelling(c);
    }
  }

  lemma BaseNameShape(p: char)
    requires IsKey(p)
    ensures !(SHIFT <= BaseName(p)) && forall i | 0 <= i < |BaseName(p)| :: !Upper(BaseName(p)[i])
    ensures (SHIFT + BaseName(p))[|SHIFT|..] == BaseName(p) && SHIFT <= SHIFT + BaseName(p)
  {
    if |BaseName(p)| > 1 {
      assert BaseName(p)[1] != SHIFT[1];
    }
  }
}
