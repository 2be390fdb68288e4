/** The printer of request bodies and two readers of what it prints: the printer's own inverse, and PowerShell's.
    Where they differ, printed text means something else to PowerShell than the printer had in mind. */
module Literals {
  import opened Decimal
  import opened Shell
  import opened PowerShell

  /** A request body. A map is its entries in key order. */
  datatype Value =
    | Str(s: string)
    | Bool(b: bool)
    | Num(n: nat)
    | Null
    | Arr(items: seq<Value>)
    | Map(entries: seq<Entry>)

  datatype Entry = Entry(key: string, value: Value)

  // ---- printing ----

  function Escape(s: string): string {
    if s == "" then "" else (if s[0] == '\'' then "''" else [s[0]]) + Escape(s[1..])
  }

  function Print(v: Value): string {
    match v
    case Str(s) => if IsVar(s) then s else "'" + (Escape(s) + "'")
    case Bool(b) => if b then "$true" else "$false"
    case Num(n) => Itoa(n)
    case Null => "$null"
    case Arr(items) => if items == [] then "@()" else "@( " + (PrintItems(items) + " )")
    case Map(entries) => "@{\n" + PrintEntries(entries)
  }

  function PrintItems(items: seq<Value>): string
    requires items != []
  {
    if |items| == 1 then Print(items[0]) else Print(items[0]) + (", " + PrintItems(items[1..]))
  }

  function PrintEntries(entries: seq<Entry>): string {
    if entries == [] then "}"
    else "    '" + (entries[0].key + ("' = " + (Print(entries[0].value) + ("\n" + PrintEntries(entries[1..])))))
  }

  // ---- reading ----

  /** The printer's inverse takes the apostrophe as its only quote and the bare strings for variables.
      PowerShell takes four typographic quotes for apostrophes as well, wants the documented form of a
      variable, ignores case in constants and refuses a repeated key. */
  datatype Reader = OfPrinter | OfPowerShell

  predicate IsQuote(rd: Reader, c: char) { c == '\'' || (rd.OfPowerShell? && '\U{2018}' <= c <= '\U{201B}') }

  function LowerCase(c: char): char { if 'A' <= c <= 'Z' then c - 'A' + 'a' else c }

  function Fold(s: string): string { seq(|s|, i requires 0 <= i < |s| => LowerCase(s[i])) }

  /** The constant a variable's spelling stands for, if any. */
  function ConstantOf(rd: Reader, s: string): seq<Literal> {
    var t := if rd.OfPowerShell? then Fold(s) else s;
    if t == "$true" then [LBool(true)] else if t == "$false" then [LBool(false)] else if t == "$null" then [LNull] else []
  }

  /** No key is repeated; case does not tell keys apart. */
  predicate DistinctKeys(keys: seq<string>) { forall i, j | 0 <= i < j < |keys| :: Fold(keys[i]) != Fold(keys[j]) }

  function KeysOf(entries: seq<(string, Literal)>): seq<string> {
    seq(|entries|, i requires 0 <= i < |entries| => entries[i].0)
  }

  function KeysPrinted(entries: seq<Entry>): seq<string> {
    seq(|entries|, i requires 0 <= i < |entries| => entries[i].key)
  }

  /** What a literal is read as. */
  datatype Literal =
    | LStr(s: string)
    | LVar(s: string)
    | LBool(b: bool)
    | LNum(n: nat)
    | LNull
    | LArr(items: seq<Literal>)
    | LMap(entries: seq<(string, Literal)>)

  datatype Read<T> = Fail | Got(value: T, rest: string)

  /** The inside of a quoted string, up to the quote that closes it. Of two quotes in a row the second is meant. */
  function ReadQuoted(rd: Reader, s: string): (r: Read<string>)
    ensures r.Got? ==> |r.rest| < |s|
    decreases |s|
  {
    if s == "" then Fail
    else if !IsQuote(rd, s[0]) then
      var more := ReadQuoted(rd, s[1..]);
      if more.Fail? then Fail else Got([s[0]] + more.value, more.rest)
    else if |s| >= 2 && IsQuote(rd, s[1]) then
      var more := ReadQuoted(rd, s[2..]);
      if more.Fail? then Fail else Got([s[1]] + more.value, more.rest)
    else Got("", s[1..])
  }

  predicate IsTokenChar(c: char) { IsWord(c) || c == '$' || c == '.' || c == '[' || c == ']' }

  function TokenRun(s: string): (n: nat)
    ensures n <= |s|
  {
    if s != "" && IsTokenChar(s[0]) then 1 + TokenRun(s[1..]) else 0
  }

  function ReadToken(rd: Reader, token: string): Read<Literal> {
    if ConstantOf(rd, token) != [] then Got(ConstantOf(rd, token)[0], "")
    else if IsVar(token) && (rd.OfPowerShell? ==> Separated(token)) then Got(LVar(token), "")
    else Fail
  }

  function ReadValue(rd: Reader, s: string): (r: Read<Literal>)
    ensures r.Got? ==> |r.rest| < |s|
    decreases |s|, 0
  {
    if s == "" then Fail
    else if s[0] == '\'' then
      var q := ReadQuoted(rd, s[1..]);
      if q.Fail? then Fail else Got(LStr(q.value), q.rest)
    else if s[0] == '$' then
      var n := TokenRun(s);
      var t := ReadToken(rd, s[..n]);
      if t.Fail? then Fail else Got(t.value, s[n..])
    else if IsDigit(s[0]) then
      var n := DigitRun(s);
      Got(LNum(Atoi(s[..n])), s[n..])
    else if "@{\n" <= s then
      var m := ReadEntries(rd, s[3..]);
      if m.Fail? || (rd.OfPowerShell? && !DistinctKeys(KeysOf(m.value))) then Fail else Got(LMap(m.value), m.rest)
    else if "@()" <= s then Got(LArr([]), s[3..])
    else if "@( " <= s then
      var a := ReadItems(rd, s[3..]);
      if a.Fail? then Fail else Got(LArr(a.value), a.rest)
    else Fail
  }

  function ReadItems(rd: Reader, s: string): (r: Read<seq<Literal>>)
    ensures r.Got? ==> |r.rest| < |s|
    decreases |s|, 1
  {
    var v := ReadValue(rd, s);
    if v.Fail? then Fail
    else if ", " <= v.rest then
      var more := ReadItems(rd, v.rest[2..]);
      if more.Fail? then Fail else Got([v.value] + more.value, more.rest)
    else if " )" <= v.rest then Got([v.value], v.rest[2..])
    else Fail
  }

  function ReadEntries(rd: Reader, s: string): (r: Read<seq<(string, Literal)>>)
    ensures r.Got? ==> |r.rest| < |s|
    decreases |s|, 1
  {
    if "}" <= s then Got([], s[1..])
    else if "    '" <= s then
      var k := ReadQuoted(rd, s[5..]);
      if k.Fail? || !(" = " <= k.rest) then Fail else
      var v := ReadValue(rd, k.rest[3..]);
      if v.Fail? || !("\n" <= v.rest) then Fail else
      var more := ReadEntries(rd, v.rest[1..]);
      if more.Fail? then Fail else Got([(k.value, v.value)] + more.value, more.rest)
    else Fail
  }

  // ---- what a body reads back as ----

  /** Strings in the variable language come back as references, and those that spell a constant as that. */
  function Meaning(rd: Reader, v: Value): Literal {
    match v
    case Str(s) => if !IsVar(s) then LStr(s) else if ConstantOf(rd, s) != [] then ConstantOf(rd, s)[0] else LVar(s)
    case Bool(b) => LBool(b)
    case Num(n) => LNum(n)
    case Null => LNull
    case Arr(items) => LArr(Meanings(rd, items))
    case Map(entries) => LMap(EntryMeanings(rd, entries))
  }

  function Meanings(rd: Reader, items: seq<Value>): seq<Literal> {
    if items == [] then [] else [Meaning(rd, items[0])] + Meanings(rd, items[1..])
  }

  function EntryMeanings(rd: Reader, entries: seq<Entry>): seq<(string, Literal)> {
    if entries == [] then [] else [(entries[0].key, Meaning(rd, entries[0].value))] + EntryMeanings(rd, entries[1..])
  }

  predicate PlainKeys(v: Value) {
    match v
    case Arr(items) => forall i | 0 <= i < |items| :: PlainKeys(items[i])
    case Map(entries) => forall i | 0 <= i < |entries| :: '\'' !in entries[i].key && PlainKeys(entries[i].value)
    case _ => true
  }

  predicate NoQuote(rd: Reader, s: string) { forall k | 0 <= k < |s| :: !IsQuote(rd, s[k]) }

  /** No quote but the apostrophe, which the printer doubles. */
  predicate OnlyApostrophes(rd: Reader, s: string) { forall k | 0 <= k < |s| && IsQuote(rd, s[k]) :: s[k] == '\'' }

  /** What the reader understands: keys without a quote and told apart, bare strings in the documented form, other
      strings without a typographic quote. For the printer's inverse only the apostrophe in a key is left. */
  predicate Readable(rd: Reader, v: Value) {
    match v
    case Str(s) => if IsVar(s) then rd.OfPowerShell? ==> Separated(s) else OnlyApostrophes(rd, s)
    case Arr(items) => forall i | 0 <= i < |items| :: Readable(rd, items[i])
    case Map(entries) =>
      && (rd.OfPowerShell? ==> DistinctKeys(KeysPrinted(entries)))
      && forall i | 0 <= i < |entries| :: NoQuote(rd, entries[i].key) && Readable(rd, entries[i].value)
    case _ => true
  }

  lemma {:induction false} PlainKeysExactly(v: Value)
    ensures Readable(OfPrinter, v) <==> PlainKeys(v)
    decreases v
  {
    match v
    case Arr(items) =>
      forall i | 0 <= i < |items| ensures Readable(OfPrinter, items[i]) <==> PlainKeys(items[i]) {
        PlainKeysExactly(items[i]);
      }
    case Map(entries) =>
      forall i | 0 <= i < |entries|
        ensures Readable(OfPrinter, entries[i].value) <==> PlainKeys(entries[i].value)
        ensures NoQuote(OfPrinter, entries[i].key) <==> '\'' !in entries[i].key
      {
        PlainKeysExactly(entries[i].value);
      }
    case _ =>
  }

  /** What may come after a value: the end, a separator or a line end. */
  predicate Delimits(rest: string) {
    rest == "" || rest[0] == ' ' || rest[0] == ',' || rest[0] == '\n'
  }

  // ---- strings, tokens, numbers ----

  lemma {:induction false} QuotedRoundTrip(rd: Reader, s: string, rest: string)
    requires OnlyApostrophes(rd, s) && (rest == "" || !IsQuote(rd, rest[0]))
    ensures ReadQuoted(rd, Escape(s) + ("'" + rest)) == Got(s, rest)
  {
    var text := Escape(s) + ("'" + rest);
    if s == "" {
      assert text == "'" + rest;
      assert text[1..] == rest;
    } else {
      QuotedRoundTrip(rd, s[1..], rest);
      var more := Escape(s[1..]) + ("'" + rest);
      if s[0] == '\'' {
        assert text[2..] == more && text[0] == '\'' && text[1] == '\'';
      } else {
        assert text[1..] == more && text[0] == s[0];
      }
      assert s == [s[0]] + s[1..];
    }
  }

  lemma {:induction false} PlainIsItsEscape(rd: Reader, s: string)
    requires NoQuote(rd, s)
    ensures Escape(s) == s
  {
    if s != "" {
      PlainIsItsEscape(rd, s[1..]);
    }
  }

  // ---- counting quotes ----

  function QuoteCount(rd: Reader, s: string): nat {
    if s == "" then 0 else (if IsQuote(rd, s[0]) then 1 else 0) + QuoteCount(rd, s[1..])
  }

  lemma {:induction false} CountConcat(rd: Reader, a: string, b: string)
    ensures QuoteCount(rd, a + b) == QuoteCount(rd, a) + QuoteCount(rd, b)
  {
    if a == "" {
      assert a + b == b;
    } else {
      assert (a + b)[1..] == a[1..] + b;
      CountConcat(rd, a[1..], b);
    }
  }

  /** A text that is all quotes begins with one. */
  lemma {:induction false} CountIsBounded(rd: Reader, s: string)
    ensures QuoteCount(rd, s) <= |s| && (QuoteCount(rd, s) == |s| && s != "" ==> IsQuote(rd, s[0]))
    ensures QuoteCount(rd, s) == 0 <==> NoQuote(rd, s)
  {
    if s != "" {
      CountIsBounded(rd, s[1..]);
      assert forall k | 0 < k < |s| :: s[k] == s[1..][k - 1];
    }
  }

  /** The printer doubles the apostrophes and no other quote. */
  lemma {:induction false} EscapeCounts(rd: Reader, s: string)
    ensures |Escape(s)| == |s| + QuoteCount(OfPrinter, s) && QuoteCount(rd, Escape(s)) == QuoteCount(rd, s) + QuoteCount(OfPrinter, s)
    ensures QuoteCount(OfPrinter, s) <= QuoteCount(rd, s)
    ensures QuoteCount(OfPrinter, s) == QuoteCount(rd, s) <==> OnlyApostrophes(rd, s)
  {
    if s != "" {
      EscapeCounts(rd, s[1..]);
      CountConcat(rd, if s[0] == '\'' then "''" else [s[0]], Escape(s[1..]));
      TwoQuotes(rd, s[0]);
      assert forall k | 0 < k < |s| :: s[k] == s[1..][k - 1];
    }
  }

  lemma TwoQuotes(rd: Reader, c: char)
    ensures QuoteCount(rd, "''") == 2 && QuoteCount(rd, [c]) == if IsQuote(rd, c) then 1 else 0
  {
    assert "''"[1..] == "'" && "'"[1..] == "" && [c][1..] == [];
    assert QuoteCount(rd, "'") == 1;
  }

  lemma CountStep(rd: Reader, s: string, k: nat, n: nat)
    requires k <= n <= |s|
    ensures QuoteCount(rd, s[..n]) == QuoteCount(rd, s[..k]) + QuoteCount(rd, s[k..][..n - k])
  {
    assert s[..n] == s[..k] + s[k..][..n - k];
    CountConcat(rd, s[..k], s[k..][..n - k]);
  }

  /** What the reader consumes: the value, every quote in it twice, and the closing quote. */
  lemma {:induction false} ReadCounts(rd: Reader, s: string)
    requires ReadQuoted(rd, s).Got?
    ensures var r := ReadQuoted(rd, s); var n := |s| - |r.rest|;
      && n == |r.value| + QuoteCount(rd, r.value) + 1
      && QuoteCount(rd, s[..n]) == 2 * QuoteCount(rd, r.value) + 1
    decreases |s|
  {
    hide QuoteCount;
    var r := ReadQuoted(rd, s);
    var n := |s| - |r.rest|;
    if !IsQuote(rd, s[0]) {
      ReadCounts(rd, s[1..]);
      OneMoreRead(rd, s, 1, n, ReadQuoted(rd, s[1..]));
    } else if |s| >= 2 && IsQuote(rd, s[1]) {
      ReadCounts(rd, s[2..]);
      OneMoreRead(rd, s, 2, n, ReadQuoted(rd, s[2..]));
    } else {
      assert s[..1] == [s[0]];
      TwoQuotes(rd, s[0]);
      CountIsBounded(rd, "");
    }
  }

  lemma OneMoreRead(rd: Reader, s: string, k: nat, n: nat, more: Read<string>)
    requires 1 <= k <= 2 && k <= n <= |s| && (k == 1 ==> !IsQuote(rd, s[0])) && (k == 2 ==> IsQuote(rd, s[0]) && IsQuote(rd, s[1]))
    requires more.Got? && QuoteCount(rd, s[k..][..n - k]) == 2 * QuoteCount(rd, more.value) + 1
    ensures QuoteCount(rd, [s[k - 1]] + more.value) == (if k == 2 then 1 else 0) + QuoteCount(rd, more.value)
    ensures QuoteCount(rd, s[..n]) == 2 * QuoteCount(rd, [s[k - 1]] + more.value) + 1
  {
    CountStep(rd, s, k, n);
    CountConcat(rd, [s[k - 1]], more.value);
    TwoQuotes(rd, s[0]);
    TwoQuotes(rd, s[k - 1]);
    if k == 1 {
      assert s[..1] == [s[0]];
    } else {
      assert s[..2] == [s[0]] + [s[1]];
      CountConcat(rd, [s[0]], [s[1]]);
    }
  }

  /** How far the reader of s has gone beyond the text p and the quote after it, and that all it met there were
      quotes. */
  lemma ReadBeyond(rd: Reader, p: string, tail: string, s: string, extra: nat, text: string, n: nat)
    requires text == p + ("'" + tail) && n == |p| + 1 + extra <= |text|
    requires QuoteCount(rd, text[..n]) == 2 * QuoteCount(rd, s) + 1 && 2 * QuoteCount(rd, s) == QuoteCount(rd, p) + extra
    ensures extra <= |tail| && QuoteCount(rd, tail[..extra]) == extra
  {
    hide QuoteCount;
    CountUpTo(rd, p, tail, extra);
  }

  lemma OnlyQuotesAhead(rd: Reader, tail: string, n: nat)
    requires n <= |tail| && QuoteCount(rd, tail[..n]) == n && (tail == "" || !IsQuote(rd, tail[0]))
    ensures n == 0
  {
    CountIsBounded(rd, tail[..n]);
  }

  lemma ReadStopsIn(rd: Reader, text: string, p: string, tail: string, extra: nat, r: Read<string>)
    requires text == p + ("'" + tail) && (tail == "" || !IsQuote(rd, tail[0]))
    requires r.Got? && |r.rest| <= |text| && |text| - |r.rest| == |r.value| + QuoteCount(rd, r.value) + 1
    requires QuoteCount(rd, text[..|text| - |r.rest|]) == 2 * QuoteCount(rd, r.value) + 1
    requires |r.value| + QuoteCount(rd, r.value) == |p| + extra && 2 * QuoteCount(rd, r.value) == QuoteCount(rd, p) + extra
    ensures extra == 0
  {
    hide QuoteCount, IsQuote;
    ReadBeyond(rd, p, tail, r.value, extra, text, |text| - |r.rest|);
    OnlyQuotesAhead(rd, tail, extra);
  }

  /** A reader that has read s from a text p before a quote, and would have had to go on for `extra` characters,
      all of them quotes, has not gone on: what follows does not begin with one. */
  lemma ReadStops(rd: Reader, text: string, p: string, tail: string, s: string, extra: nat)
    requires text == p + ("'" + tail) && (tail == "" || !IsQuote(rd, tail[0]))
    requires ReadQuoted(rd, text).Got? && ReadQuoted(rd, text).value == s
    requires |s| + QuoteCount(rd, s) == |p| + extra && 2 * QuoteCount(rd, s) == QuoteCount(rd, p) + extra
    ensures extra == 0
  {
    hide ReadQuoted, QuoteCount, IsQuote;
    ReadCounts(rd, text);
    ReadStopsIn(rd, text, p, tail, extra, ReadQuoted(rd, text));
  }

  lemma CountUpTo(rd: Reader, p: string, tail: string, n: nat)
    requires n <= |tail|
    ensures QuoteCount(rd, (p + ("'" + tail))[..|p| + 1 + n]) == QuoteCount(rd, p) + 1 + QuoteCount(rd, tail[..n])
  {
    hide QuoteCount;
    assert (p + ("'" + tail))[..|p| + 1 + n] == p + ("'" + tail[..n]);
    CountConcat(rd, p, "'" + tail[..n]);
    CountConcat(rd, "'", tail[..n]);
    TwoQuotes(rd, '\'');
  }

  /** A printed string that is not bare reads back exactly when it holds no typographic quote. */
  lemma StringReadsBackExactly(rd: Reader, s: string, rest: string)
    requires rest == "" || !IsQuote(rd, rest[0])
    ensures ReadQuoted(rd, Escape(s) + ("'" + rest)) == Got(s, rest) <==> OnlyApostrophes(rd, s)
  {
    if OnlyApostrophes(rd, s) {
      QuotedRoundTrip(rd, s, rest);
    } else if ReadQuoted(rd, Escape(s) + ("'" + rest)) == Got(s, rest) {
      StringReadBack(rd, s, rest);
    }
  }

  lemma StringReadBack(rd: Reader, s: string, rest: string)
    requires rest == "" || !IsQuote(rd, rest[0])
    requires ReadQuoted(rd, Escape(s) + ("'" + rest)).Got? && ReadQuoted(rd, Escape(s) + ("'" + rest)).value == s
    ensures OnlyApostrophes(rd, s)
  {
    EscapeCounts(rd, s);
    ReadStops(rd, Escape(s) + ("'" + rest), Escape(s), rest, s, QuoteCount(rd, s) - QuoteCount(OfPrinter, s));
  }

  /** If the printed key is read as the key, it holds no quote, whatever is read after it. */
  lemma KeyReadBack(rd: Reader, key: string, tail: string)
    requires tail == "" || !IsQuote(rd, tail[0])
    requires ReadQuoted(rd, key + ("'" + tail)).Got? && ReadQuoted(rd, key + ("'" + tail)).value == key
    ensures NoQuote(rd, key) && ReadQuoted(rd, key + ("'" + tail)).rest == tail
  {
    ReadStops(rd, key + ("'" + tail), key, tail, key, QuoteCount(rd, key));
    CountIsBounded(rd, key);
    KeyReads(rd, key, tail);
  }

  /** Keys are printed without escaping, so a key reads back exactly when it holds no quote. */
  lemma KeyReadsBackExactly(rd: Reader, key: string, tail: string)
    requires tail == "" || !IsQuote(rd, tail[0])
    ensures ReadQuoted(rd, key + ("'" + tail)) == Got(key, tail) <==> NoQuote(rd, key)
  {
    if NoQuote(rd, key) {
      KeyReads(rd, key, tail);
    } else if ReadQuoted(rd, key + ("'" + tail)) == Got(key, tail) {
      KeyReadBack(rd, key, tail);
    }
  }

  // ---- tokens and numbers ----

  lemma {:induction false} TokenEnds(s: string, rest: string)
    requires forall k | 0 <= k < |s| :: IsTokenChar(s[k])
    requires Delimits(rest)
    ensures TokenRun(s + rest) == |s|
  {
    if s == "" {
      assert s + rest == rest;
    } else {
      assert (s + rest)[1..] == s[1..] + rest;
      TokenEnds(s[1..], rest);
    }
  }

  lemma {:induction false} TailIsTokens(s: string)
    requires VarTail(s)
    ensures forall k | 0 <= k < |s| :: IsTokenChar(s[k])
    decreases |s|
  {
    if s != "" {
      var n := if IsWord(s[0]) then 1 else if s[0] == '.' then 2 else IndexLength(s);
      TailIsTokens(s[n..]);
      assert forall k | n <= k < |s| :: s[k] == s[n..][k - n];
      HeadIsTokens(s, n);
    }
  }

  lemma HeadIsTokens(s: string, n: nat)
    requires n <= |s| && s != ""
    requires (IsWord(s[0]) && n == 1) || (s[0] == '.' && n == 2 && IsWord(s[1])) || (s[0] == '[' && n == IndexLength(s))
    ensures forall k | 0 <= k < n :: IsTokenChar(s[k])
  {
    if s[0] == '[' && n > 0 {
      assert forall k | 1 <= k < n - 1 :: s[k] == s[1..][k - 1];
    }
  }

  lemma VarIsTokens(s: string)
    requires IsVar(s)
    ensures forall k | 0 <= k < |s| :: IsTokenChar(s[k])
  {
    TailIsTokens(s[2..]);
    assert forall k | 2 <= k < |s| :: s[k] == s[2..][k - 2];
  }

  lemma TokenReads(rd: Reader, token: string, rest: string)
    requires token != "" && token[0] == '$' && (forall k | 0 <= k < |token| :: IsTokenChar(token[k])) && Delimits(rest)
    ensures ReadValue(rd, token + rest) == if ReadToken(rd, token).Fail? then Fail else Got(ReadToken(rd, token).value, rest)
  {
    TokenEnds(token, rest);
    assert (token + rest)[..|token|] == token && (token + rest)[|token|..] == rest;
  }

  lemma QuotedReads(rd: Reader, inside: string, s: string, rest: string, more: string)
    requires ReadQuoted(rd, inside + ("'" + rest)) == Got(s, more)
    ensures ReadValue(rd, "'" + (inside + "'") + rest) == Got(LStr(s), more)
  {
    var text := "'" + (inside + "'") + rest;
    assert text[1..] == inside + ("'" + rest);
    assert text[0] == '\'';
  }

  lemma VarReads(rd: Reader, s: string, rest: string)
    requires IsVar(s) && Delimits(rest)
    ensures ReadValue(rd, s + rest) == if Readable(rd, Str(s)) then Got(Meaning(rd, Str(s)), rest) else Fail
  {
    VarIsTokens(s);
    TokenReads(rd, s, rest);
    if ConstantOf(rd, s) != [] {
      ConstantsAreSeparated(rd, s);
    }
  }

  lemma ConstantsAreSeparated(rd: Reader, s: string)
    requires ConstantOf(rd, s) != []
    ensures Separated(s)
  {
    var t := if rd.OfPowerShell? then Fold(s) else s;
    assert forall i | 0 <= i < |s| && s[i] == ']' :: t[i] == ']';
    assert ']' !in "$true" && ']' !in "$false" && ']' !in "$null";
  }

  lemma StrReads(rd: Reader, s: string, rest: string)
    requires Readable(rd, Str(s)) && Delimits(rest)
    ensures ReadValue(rd, Print(Str(s)) + rest) == Got(Meaning(rd, Str(s)), rest)
  {
    if IsVar(s) {
      VarReads(rd, s, rest);
    } else {
      QuotedRoundTrip(rd, s, rest);
      QuotedReads(rd, Escape(s), s, rest, rest);
    }
  }

  lemma NumReads(rd: Reader, n: nat, rest: string)
    requires Delimits(rest)
    ensures ReadValue(rd, Itoa(n) + rest) == Got(LNum(n), rest)
  {
    ItoaRoundTrip(n);
    var text := Itoa(n) + rest;
    RunIs(text, |Itoa(n)|);
    assert text[..|Itoa(n)|] == Itoa(n) && text[|Itoa(n)|..] == rest;
    assert IsDigit(text[0]);
  }

  lemma ConstantReads(rd: Reader, rest: string)
    requires Delimits(rest)
    ensures ReadValue(rd, "$true" + rest) == Got(LBool(true), rest)
    ensures ReadValue(rd, "$false" + rest) == Got(LBool(false), rest)
    ensures ReadValue(rd, "$null" + rest) == Got(LNull, rest)
  {
    FoldedConstants();
    TokenReads(rd, "$true", rest);
    TokenReads(rd, "$false", rest);
    TokenReads(rd, "$null", rest);
  }

  lemma FoldedConstants()
    ensures Fold("$true") == "$true" && Fold("$false") == "$false" && Fold("$null") == "$null"
  {
  }

  // ---- arrays and maps, one piece at a time ----

  lemma Regroup(a: string, b: string, c: string, d: string)
    ensures (a + (b + c)) + d == a + (b + (c + d))
  {
  }

  lemma ArrayReads(rd: Reader, body: string, items: seq<Literal>, rest: string)
    requires ReadItems(rd, body) == Got(items, rest)
    ensures ReadValue(rd, "@( " + body) == Got(LArr(items), rest)
  {
    var text := "@( " + body;
    assert text[3..] == body;
    assert text[0] == '@' && text[2] == ' ';
  }

  lemma MapReads(rd: Reader, body: string, entries: seq<(string, Literal)>, rest: string)
    requires ReadEntries(rd, body) == Got(entries, rest) && (rd.OfPowerShell? ==> DistinctKeys(KeysOf(entries)))
    ensures ReadValue(rd, "@{\n" + body) == Got(LMap(entries), rest)
  {
    var text := "@{\n" + body;
    assert text[3..] == body;
    assert text[0] == '@';
  }

  lemma LastItemReads(rd: Reader, text: string, lit: Literal, rest: string)
    requires ReadValue(rd, text) == Got(lit, " )" + rest)
    ensures ReadItems(rd, text) == Got([lit], rest)
  {
    assert (" )" + rest)[2..] == rest;
    assert (" )" + rest)[0] == ' ';
  }

  lemma ItemReads(rd: Reader, text: string, lit: Literal, more: string, items: seq<Literal>, rest: string)
    requires ReadValue(rd, text) == Got(lit, ", " + more) && ReadItems(rd, more) == Got(items, rest)
    ensures ReadItems(rd, text) == Got([lit] + items, rest)
  {
    assert (", " + more)[2..] == more;
  }

  lemma EntryReads(rd: Reader, text: string, key: string, val: string, lit: Literal, more: string, entries: seq<(string, Literal)>, rest: string)
    requires ReadQuoted(rd, text) == Got(key, " = " + val)
    requires ReadValue(rd, val) == Got(lit, "\n" + more)
    requires ReadEntries(rd, more) == Got(entries, rest)
    ensures ReadEntries(rd, "    '" + text) == Got([(key, lit)] + entries, rest)
  {
    var whole := "    '" + text;
    assert whole[5..] == text && whole[0] == ' ';
    assert (" = " + val)[3..] == val;
    assert ("\n" + more)[1..] == more;
  }

  lemma KeyReads(rd: Reader, key: string, tail: string)
    requires NoQuote(rd, key) && (tail == "" || !IsQuote(rd, tail[0]))
    ensures ReadQuoted(rd, key + ("'" + tail)) == Got(key, tail)
  {
    PlainIsItsEscape(rd, key);
    QuotedRoundTrip(rd, key, tail);
  }

  lemma EntryText(key: string, val: string, tail: string, rest: string)
    ensures ("    '" + (key + ("' = " + (val + ("\n" + tail))))) + rest
         == "    '" + (key + ("'" + (" = " + (val + ("\n" + (tail + rest))))))
  {
    var value := val + ("\n" + tail);
    assert value + rest == val + ("\n" + (tail + rest));
    assert ("' = " + value) + rest == "'" + (" = " + (value + rest));
  }

  // ---- the round trip ----

  /** Printing a body the reader understands and reading it gives the body's meaning, whatever follows. */
  lemma {:induction false} RoundTrip(rd: Reader, v: Value, rest: string)
    requires Readable(rd, v) && Delimits(rest)
    ensures ReadValue(rd, Print(v) + rest) == Got(Meaning(rd, v), rest)
    decreases v
  {
    match v
    case Str(s) => StrReads(rd, s, rest);
    case Bool(b) => ConstantReads(rd, rest);
    case Num(n) => NumReads(rd, n, rest);
    case Null => ConstantReads(rd, rest);
    case Arr(items) =>
      if items == [] {
        EmptyArrayReads(rd, rest);
      } else {
        ItemsRoundTrip(rd, items, rest);
        ArrayReads(rd, PrintItems(items) + (" )" + rest), Meanings(rd, items), rest);
        Regroup("@( ", PrintItems(items), " )", rest);
      }
    case Map(entries) =>
      EntriesRoundTrip(rd, entries, rest);
      MeaningKeepsKeys(rd, entries);
      MapReads(rd, PrintEntries(entries) + rest, EntryMeanings(rd, entries), rest);
      assert ("@{\n" + PrintEntries(entries)) + rest == "@{\n" + (PrintEntries(entries) + rest);
  }

  lemma {:induction false} MeaningKeepsKeys(rd: Reader, entries: seq<Entry>)
    ensures KeysOf(EntryMeanings(rd, entries)) == KeysPrinted(entries)
    decreases entries
  {
    if entries != [] {
      MeaningKeepsKeys(rd, entries[1..]);
      var all := EntryMeanings(rd, entries);
      assert all[1..] == EntryMeanings(rd, entries[1..]);
      assert KeysOf(all) == [entries[0].key] + KeysOf(all[1..]);
      assert KeysPrinted(entries) == [entries[0].key] + KeysPrinted(entries[1..]);
    }
  }

  lemma EmptyArrayReads(rd: Reader, rest: string)
    ensures ReadValue(rd, "@()" + rest) == Got(LArr([]), rest)
  {
    assert ("@()" + rest)[3..] == rest;
    assert ("@()" + rest)[0] == '@' && ("@()" + rest)[1] == '(';
  }

  lemma {:induction false} ItemsRoundTrip(rd: Reader, items: seq<Value>, rest: string)
    requires items != [] && forall k | 0 <= k < |items| :: Readable(rd, items[k])
    ensures ReadItems(rd, PrintItems(items) + (" )" + rest)) == Got(Meanings(rd, items), rest)
    decreases items
  {
    if |items| == 1 {
      RoundTrip(rd, items[0], " )" + rest);
      LastItemReads(rd, Print(items[0]) + (" )" + rest), Meaning(rd, items[0]), rest);
      assert Meanings(rd, items) == [Meaning(rd, items[0])];
    } else {
      var more := PrintItems(items[1..]) + (" )" + rest);
      ItemsRoundTrip(rd, items[1..], rest);
      RoundTrip(rd, items[0], ", " + more);
      ItemReads(rd, Print(items[0]) + (", " + more), Meaning(rd, items[0]), more, Meanings(rd, items[1..]), rest);
      Regroup(Print(items[0]), ", ", PrintItems(items[1..]), " )" + rest);
    }
  }

  lemma {:induction false} EntriesRoundTrip(rd: Reader, entries: seq<Entry>, rest: string)
    requires forall k | 0 <= k < |entries| :: NoQuote(rd, entries[k].key) && Readable(rd, entries[k].value)
    ensures ReadEntries(rd, PrintEntries(entries) + rest) == Got(EntryMeanings(rd, entries), rest)
    decreases entries
  {
    if entries == [] {
      assert ("}" + rest)[1..] == rest;
    } else {
      var key, val := entries[0].key, Print(entries[0].value);
      var more := PrintEntries(entries[1..]) + rest;
      EntriesRoundTrip(rd, entries[1..], rest);
      RoundTrip(rd, entries[0].value, "\n" + more);
      var tail := " = " + (val + ("\n" + more));
      KeyReads(rd, key, tail);
      EntryReads(rd, key + ("'" + tail), key, val + ("\n" + more), Meaning(rd, entries[0].value), more, EntryMeanings(rd, entries[1..]), rest);
      EntryText(key, val, PrintEntries(entries[1..]), rest);
    }
  }

  // ---- what the printing can confuse ----

  /** No string spells a constant. */
  predicate NoConstants(rd: Reader, v: Value) {
    match v
    case Str(s) => ConstantOf(rd, s) == []
    case Arr(items) => forall i | 0 <= i < |items| :: NoConstants(rd, items[i])
    case Map(entries) => forall i | 0 <= i < |entries| :: NoConstants(rd, entries[i].value)
    case _ => true
  }

  lemma {:induction false} MeaningIsInjective(rd: Reader, v: Value, w: Value)
    requires NoConstants(rd, v) && NoConstants(rd, w) && Meaning(rd, v) == Meaning(rd, w)
    ensures v == w
    decreases v
  {
    match v
    case Arr(items) => ItemMeaningsAreInjective(rd, items, w.items);
    case Map(entries) => EntryMeaningsAreInjective(rd, entries, w.entries);
    case _ =>
  }

  lemma {:induction false} ItemMeaningsAreInjective(rd: Reader, a: seq<Value>, b: seq<Value>)
    requires forall i | 0 <= i < |a| :: NoConstants(rd, a[i])
    requires forall i | 0 <= i < |b| :: NoConstants(rd, b[i])
    requires Meanings(rd, a) == Meanings(rd, b)
    ensures a == b
    decreases a
  {
    if a != [] && b != [] {
      var x, y := Meanings(rd, a), Meanings(rd, b);
      assert x[0] == y[0] && x[1..] == y[1..];
      assert x[1..] == Meanings(rd, a[1..]) && y[1..] == Meanings(rd, b[1..]);
      MeaningIsInjective(rd, a[0], b[0]);
      ItemMeaningsAreInjective(rd, a[1..], b[1..]);
      assert a == [a[0]] + a[1..] && b == [b[0]] + b[1..];
    }
  }

  lemma {:induction false} EntryMeaningsAreInjective(rd: Reader, a: seq<Entry>, b: seq<Entry>)
    requires forall i | 0 <= i < |a| :: NoConstants(rd, a[i].value)
    requires forall i | 0 <= i < |b| :: NoConstants(rd, b[i].value)
    requires EntryMeanings(rd, a) == EntryMeanings(rd, b)
    ensures a == b
    decreases a
  {
    if a != [] && b != [] {
      var x, y := EntryMeanings(rd, a), EntryMeanings(rd, b);
      assert x[0] == y[0] && x[1..] == y[1..];
      assert x[1..] == EntryMeanings(rd, a[1..]) && y[1..] == EntryMeanings(rd, b[1..]);
      MeaningIsInjective(rd, a[0].value, b[0].value);
      EntryMeaningsAreInjective(rd, a[1..], b[1..]);
      assert a == [a[0]] + a[1..] && b == [b[0]] + b[1..];
    }
  }

  /** Bodies that mean the same to the printer are printed the same. */
  lemma {:induction false} MeaningDecidesPrint(v: Value, w: Value)
    requires Meaning(OfPrinter, v) == Meaning(OfPrinter, w)
    ensures Print(v) == Print(w)
    decreases v
  {
    match v
    case Arr(items) => ItemMeaningsDecide(items, w.items);
    case Map(entries) => EntryMeaningsDecide(entries, w.entries);
    case _ => ScalarsAlike(v, w);
  }

  lemma ConstantIs(s: string)
    ensures ConstantOf(OfPrinter, s) == [LBool(true)] <==> s == "$true"
    ensures ConstantOf(OfPrinter, s) == [LBool(false)] <==> s == "$false"
    ensures ConstantOf(OfPrinter, s) == [LNull] <==> s == "$null"
    ensures ConstantOf(OfPrinter, s) == [] || ConstantOf(OfPrinter, s)[0] in [LBool(true), LBool(false), LNull]
    ensures |ConstantOf(OfPrinter, s)| <= 1
  {
  }

  lemma ScalarsAlike(v: Value, w: Value)
    requires Meaning(OfPrinter, v) == Meaning(OfPrinter, w) && !v.Arr? && !v.Map?
    ensures Print(v) == Print(w)
  {
    hide ConstantOf, IsVar, Escape, Itoa;
    ConstantsCollide(true);
    ConstantsCollide(false);
    if v.Str? {
      ConstantIs(v.s);
    }
    if w.Str? {
      ConstantIs(w.s);
    }
  }

  lemma {:induction false} ItemMeaningsDecide(a: seq<Value>, b: seq<Value>)
    requires Meanings(OfPrinter, a) == Meanings(OfPrinter, b)
    ensures |a| == |b| && (a != [] ==> PrintItems(a) == PrintItems(b))
    decreases a
  {
    if a != [] && b != [] {
      var x, y := Meanings(OfPrinter, a), Meanings(OfPrinter, b);
      assert x[0] == y[0] && x[1..] == y[1..];
      assert x[1..] == Meanings(OfPrinter, a[1..]) && y[1..] == Meanings(OfPrinter, b[1..]);
      MeaningDecidesPrint(a[0], b[0]);
      ItemMeaningsDecide(a[1..], b[1..]);
    }
  }

  lemma {:induction false} EntryMeaningsDecide(a: seq<Entry>, b: seq<Entry>)
    requires EntryMeanings(OfPrinter, a) == EntryMeanings(OfPrinter, b)
    ensures PrintEntries(a) == PrintEntries(b)
    decreases a
  {
    if a != [] && b != [] {
      var x, y := EntryMeanings(OfPrinter, a), EntryMeanings(OfPrinter, b);
      assert x[0] == y[0] && x[1..] == y[1..];
      assert x[1..] == EntryMeanings(OfPrinter, a[1..]) && y[1..] == EntryMeanings(OfPrinter, b[1..]);
      MeaningDecidesPrint(a[0].value, b[0].value);
      EntryMeaningsDecide(a[1..], b[1..]);
    }
  }

  /** Two bodies are printed alike exactly when they mean the same to it, that is when they differ at most in
      strings that spell a constant where the other has the constant. */
  lemma PrintsAlikeExactly(v: Value, w: Value)
    requires PlainKeys(v) && PlainKeys(w)
    ensures Print(v) == Print(w) <==> Meaning(OfPrinter, v) == Meaning(OfPrinter, w)
  {
    PlainKeysExactly(v);
    PlainKeysExactly(w);
    if Print(v) == Print(w) {
      RoundTrip(OfPrinter, v, "");
      RoundTrip(OfPrinter, w, "");
      assert Print(v) + "" == Print(w) + "";
    }
    if Meaning(OfPrinter, v) == Meaning(OfPrinter, w) {
      MeaningDecidesPrint(v, w);
    }
  }

  /** So without such strings different bodies are printed differently. */
  lemma PrintIsInjective(v: Value, w: Value)
    requires PlainKeys(v) && PlainKeys(w) && NoConstants(OfPrinter, v) && NoConstants(OfPrinter, w)
    ensures Print(v) == Print(w) <==> v == w
  {
    PrintsAlikeExactly(v, w);
    if Print(v) == Print(w) {
      MeaningIsInjective(OfPrinter, v, w);
    }
  }

  /** The string that spells a constant cannot be told from it. */
  lemma ConstantsCollide(b: bool)
    ensures Print(Str(if b then "$true" else "$false")) == Print(Bool(b)) && Print(Str("$null")) == Print(Null)
  {
    IsVarWord("true");
    IsVarWord("false");
    IsVarWord("null");
    assert "$" + "true" == "$true" && "$" + "false" == "$false" && "$" + "null" == "$null";
  }

  lemma IsVarWord(name: string)
    requires Ident(name)
    ensures IsVar("$" + name)
  {
    var s := "$" + name;
    assert s[1] == name[0] && forall k | 1 <= k < |s| :: s[k] == name[k - 1];
    SkipWords(s[2..], |s| - 2);
    assert s[2..][|s| - 2..] == "";
  }

  // ---- exactly when a body reads back ----

  lemma ArrayReadBack(rd: Reader, body: string)
    ensures ReadValue(rd, "@( " + body) == if ReadItems(rd, body).Fail? then Fail else Got(LArr(ReadItems(rd, body).value), ReadItems(rd, body).rest)
  {
    var text := "@( " + body;
    assert text[3..] == body;
    assert text[0] == '@' && text[1] == '(' && text[2] == ' ';
  }

  lemma MapReadBack(rd: Reader, body: string)
    ensures ReadValue(rd, "@{\n" + body)
         == if ReadEntries(rd, body).Fail? || (rd.OfPowerShell? && !DistinctKeys(KeysOf(ReadEntries(rd, body).value))) then Fail else Got(LMap(ReadEntries(rd, body).value), ReadEntries(rd, body).rest)
  {
    var text := "@{\n" + body;
    assert text[3..] == body;
    assert text[0] == '@';
  }

  /** Reading an item's text starts with reading a value, and goes on after a comma. */
  lemma ItemsReadBack(rd: Reader, text: string)
    requires ReadItems(rd, text).Got?
    ensures ReadValue(rd, text).Got? && ReadItems(rd, text).value[..1] == [ReadValue(rd, text).value]
    ensures ", " <= ReadValue(rd, text).rest ==>
              ReadItems(rd, ReadValue(rd, text).rest[2..]).Got? && ReadItems(rd, text).value[1..] == ReadItems(rd, ReadValue(rd, text).rest[2..]).value
  {
  }

  /** The parts an entry is read in. */
  lemma EntryReadBack(rd: Reader, text: string)
    requires ReadEntries(rd, "    '" + text).Got?
    ensures var k, all := ReadQuoted(rd, text), ReadEntries(rd, "    '" + text);
      && k.Got? && " = " <= k.rest
      && var v := ReadValue(rd, k.rest[3..]);
      && v.Got? && "\n" <= v.rest && ReadEntries(rd, v.rest[1..]).Got?
      && all.value == [(k.value, v.value)] + ReadEntries(rd, v.rest[1..]).value
  {
    var whole := "    '" + text;
    assert whole[5..] == text && whole[0] == ' ';
  }

  /** A body that is read as what it means is one the reader understands, however deep. */
  lemma {:induction false} ReadBackIsPlain(rd: Reader, v: Value, rest: string)
    requires Delimits(rest) && ReadValue(rd, Print(v) + rest).Got? && ReadValue(rd, Print(v) + rest).value == Meaning(rd, v)
    ensures Readable(rd, v)
    decreases v
  {
    hide ReadValue, ReadItems, ReadEntries, IsVar, ConstantOf;
    match v
    case Str(s) => StrReadBack(rd, s, rest);
    case Arr(items) =>
      if items != [] {
        var body := PrintItems(items) + (" )" + rest);
        Regroup("@( ", PrintItems(items), " )", rest);
        ArrayReadBack(rd, body);
        ItemsAreReadBack(rd, items, rest);
      }
    case Map(entries) =>
      assert ("@{\n" + PrintEntries(entries)) + rest == "@{\n" + (PrintEntries(entries) + rest);
      MapReadBack(rd, PrintEntries(entries) + rest);
      EntriesAreReadBack(rd, entries, rest);
      MeaningKeepsKeys(rd, entries);
    case _ =>
  }

  lemma StrReadBack(rd: Reader, s: string, rest: string)
    requires Delimits(rest) && ReadValue(rd, Print(Str(s)) + rest).Got? && ReadValue(rd, Print(Str(s)) + rest).value == Meaning(rd, Str(s))
    ensures Readable(rd, Str(s))
  {
    if IsVar(s) {
      VarReads(rd, s, rest);
    } else {
      var text := "'" + (Escape(s) + "'") + rest;
      assert text[1..] == Escape(s) + ("'" + rest);
      StringReadBack(rd, s, rest);
    }
  }

  lemma {:induction false} ItemsAreReadBack(rd: Reader, items: seq<Value>, rest: string)
    requires items != [] && ReadItems(rd, PrintItems(items) + (" )" + rest)).Got?
    requires ReadItems(rd, PrintItems(items) + (" )" + rest)).value == Meanings(rd, items)
    ensures forall k | 0 <= k < |items| :: Readable(rd, items[k])
    decreases items
  {
    var text := PrintItems(items) + (" )" + rest);
    ItemsReadBack(rd, text);
    assert Meanings(rd, items)[0] == Meaning(rd, items[0]) == ReadItems(rd, text).value[..1][0];
    assert Meanings(rd, items)[1..] == Meanings(rd, items[1..]);
    if |items| == 1 {
      ReadBackIsPlain(rd, items[0], " )" + rest);
    } else {
      var more := PrintItems(items[1..]) + (" )" + rest);
      Regroup(Print(items[0]), ", ", PrintItems(items[1..]), " )" + rest);
      ReadBackIsPlain(rd, items[0], ", " + more);
      RoundTrip(rd, items[0], ", " + more);
      assert (", " + more)[2..] == more;
      ItemsAreReadBack(rd, items[1..], rest);
      assert forall k | 0 < k < |items| :: items[k] == items[1..][k - 1];
    }
  }

  lemma {:induction false} EntriesAreReadBack(rd: Reader, entries: seq<Entry>, rest: string)
    requires ReadEntries(rd, PrintEntries(entries) + rest).Got?
    requires ReadEntries(rd, PrintEntries(entries) + rest).value == EntryMeanings(rd, entries)
    ensures forall k | 0 <= k < |entries| :: NoQuote(rd, entries[k].key) && Readable(rd, entries[k].value)
    decreases entries
  {
    if entries != [] {
      var key, val := entries[0].key, Print(entries[0].value);
      var more := PrintEntries(entries[1..]) + rest;
      var tail := " = " + (val + ("\n" + more));
      EntryText(key, val, PrintEntries(entries[1..]), rest);
      EntryReadBack(rd, key + ("'" + tail));
      FirstEntry(rd, entries, ReadEntries(rd, PrintEntries(entries) + rest).value);
      KeyReadBack(rd, key, tail);
      assert tail[3..] == val + ("\n" + more);
      ReadBackIsPlain(rd, entries[0].value, "\n" + more);
      RoundTrip(rd, entries[0].value, "\n" + more);
      assert ("\n" + more)[1..] == more;
      EntriesAreReadBack(rd, entries[1..], rest);
      assert forall k | 0 < k < |entries| :: entries[k] == entries[1..][k - 1];
    }
  }

  lemma FirstEntry(rd: Reader, entries: seq<Entry>, meanings: seq<(string, Literal)>)
    requires entries != [] && meanings == EntryMeanings(rd, entries)
    ensures meanings[0] == (entries[0].key, Meaning(rd, entries[0].value)) && meanings[1..] == EntryMeanings(rd, entries[1..])
  {
  }

  /** A printed body reads back as what it means exactly when the reader understands it: in PowerShell, when no
      key holds one of the five quotes or is repeated, every bare string is in the documented form and no other
      string holds a typographic quote, at every depth. */
  lemma ReadsBackExactly(rd: Reader, v: Value, rest: string)
    requires Delimits(rest)
    ensures ReadValue(rd, Print(v) + rest) == Got(Meaning(rd, v), rest) <==> Readable(rd, v)
  {
    if Readable(rd, v) {
      RoundTrip(rd, v, rest);
    } else if ReadValue(rd, Print(v) + rest) == Got(Meaning(rd, v), rest) {
      ReadBackIsPlain(rd, v, rest);
    }
  }

  // ---- the failing inputs ----

  /** PowerShell cuts a string short at a typographic quote. */
  lemma TypographicQuoteCuts(a: string, q: char, b: string, rest: string)
    requires NoQuote(OfPowerShell, a) && IsQuote(OfPowerShell, q) && q != '\'' && b != "" && !IsQuote(OfPowerShell, b[0])
    requires !IsVar(a + [q] + b)
    ensures ReadValue(OfPowerShell, Print(Str(a + [q] + b)) + rest) == Got(LStr(a), Escape(b) + ("'" + rest))
    ensures PlainKeys(Str(a + [q] + b)) && !Readable(OfPowerShell, Str(a + [q] + b))
  {
    hide ReadQuoted, Escape, IsVar;
    var s, more := a + [q] + b, Escape(b) + ("'" + rest);
    assert s[|a|] == q;
    EscapeOfCut(a, q, b);
    EscapeStarts(b);
    CutAtQuote(a, q, more);
    CutText(a, [q], Escape(b), rest);
    QuotedReads(OfPowerShell, Escape(s), a, rest, more);
  }

  lemma EscapeStarts(b: string)
    requires b != "" && !IsQuote(OfPowerShell, b[0])
    ensures Escape(b) != "" && Escape(b)[0] == b[0]
  {
  }

  lemma CutText(a: string, q: string, b: string, rest: string)
    ensures (a + (q + b)) + ("'" + rest) == a + (q + (b + ("'" + rest)))
  {
  }

  lemma {:induction false} EscapeOfCut(a: string, q: char, b: string)
    requires NoQuote(OfPowerShell, a) && q != '\''
    ensures Escape(a + [q] + b) == a + ([q] + Escape(b))
  {
    var s := a + [q] + b;
    if a == "" {
      assert s[1..] == b;
    } else {
      assert s[1..] == a[1..] + [q] + b;
      EscapeOfCut(a[1..], q, b);
    }
  }

  lemma {:induction false} CutAtQuote(a: string, q: char, more: string)
    requires NoQuote(OfPowerShell, a) && IsQuote(OfPowerShell, q) && (more == "" || !IsQuote(OfPowerShell, more[0]))
    ensures ReadQuoted(OfPowerShell, a + ([q] + more)) == Got(a, more)
  {
    var text := a + ([q] + more);
    if a == "" {
      assert text == [q] + more && text[1..] == more;
    } else {
      assert text[1..] == a[1..] + ([q] + more);
      CutAtQuote(a[1..], q, more);
      assert a == [a[0]] + a[1..];
    }
  }

  /** A word straight after an index: the printer leaves it bare, PowerShell rejects it. */
  lemma UnseparatedIsRejected(s: string, rest: string)
    requires IsVar(s) && Delimits(rest)
    ensures Print(Str(s)) == s && (ReadValue(OfPowerShell, s + rest).Fail? <==> !Separated(s))
  {
    VarReads(OfPowerShell, s, rest);
  }

  lemma UnseparatedExists()
    ensures IsVar("$a[0]c") && !Separated("$a[0]c")
  {
    var s := "$a[0]c";
    assert s[4] == ']' && s[5] == 'c';
    BracketStep(s[2..], 1);
    assert s[2..][3..] == "c";
    SkipWords("c", 1);
  }
}
