/** Variable references in paths and bodies: where they are, and how the bash rendering brackets them. */
module Shell {
  import opened Decimal

  predicate IsAlpha(c: char) { 'a' <= c <= 'z' || 'A' <= c <= 'Z' }

  predicate IsWord(c: char) { IsAlpha(c) || c == '_' || IsDigit(c) }

  /** The length of the run of word characters that begins at i. */
  function WordLength(s: string, i: nat): (n: nat)
    requires i <= |s|
    ensures i + n <= |s|
    ensures forall k | i <= k < i + n :: IsWord(s[k])
    ensures i + n < |s| ==> !IsWord(s[i + n])
    decreases |s| - i
  {
    if i < |s| && IsWord(s[i]) then 1 + WordLength(s, i + 1) else 0
  }

  /** The scan over such a run. */
  method SkipWord(s: string, i: nat) returns (j: nat)
    requires i <= |s|
    ensures j == i + WordLength(s, i)
  {
    j := i;
    while j < |s| && IsWord(s[j])
      invariant i <= j <= |s|
      invariant WordLength(s, i) == j - i + WordLength(s, j)
    {
      j := j + 1;
    }
  }

  /** A reference begins at i: a dollar sign with at least one word character after it. */
  predicate RefAt(s: string, i: nat) {
    i + 1 < |s| && s[i] == '$' && IsWord(s[i + 1])
  }

  /** The names referred to from position i on. */
  function RefsFrom(s: string, i: nat): set<string>
    requires i <= |s|
    decreases |s| - i
  {
    if i == |s| then {}
    else if RefAt(s, i) then
      var n := WordLength(s, i + 1);
      {s[i + 1..i + 1 + n]} + RefsFrom(s, i + 1 + n)
    else RefsFrom(s, i + 1)
  }

  function Refs(s: string): set<string> { RefsFrom(s, 0) }

  function Bracketed(name: string): string { "${" + name + "}" }

  /** The text from position i on with every reference bracketed. */
  function ExpandFrom(s: string, i: nat): string
    requires i <= |s|
    decreases |s| - i
  {
    if i == |s| then ""
    else if RefAt(s, i) then
      var n := WordLength(s, i + 1);
      Bracketed(s[i + 1..i + 1 + n]) + ExpandFrom(s, i + 1 + n)
    else [s[i]] + ExpandFrom(s, i + 1)
  }

  function Expand(s: string): string { ExpandFrom(s, 0) }

  lemma Associates(a: string, b: string, c: string)
    ensures (a + b) + c == a + (b + c)
  {
  }

  lemma ExpandOneRef(s: string, i: nat, j: nat)
    requires i + 1 < j <= |s| && s[i] == '$' && WordLength(s, i + 1) == j - (i + 1)
    ensures ExpandFrom(s, i) == Bracketed(s[i + 1..j]) + ExpandFrom(s, j)
  {
    assert RefAt(s, i);
  }

  method ExpandPath(path: string) returns (out: string)
    ensures out == Expand(path)
  {
    out := "";
    var i := 0;
    while i < |path|
      invariant i <= |path|
      invariant Expand(path) == out + ExpandFrom(path, i)
    {
      if path[i] == '$' {
        var j := SkipWord(path, i + 1);
        if j > i + 1 {
          ExpandOneRef(path, i, j);
          Associates(out, Bracketed(path[i + 1..j]), ExpandFrom(path, j));
          out := out + Bracketed(path[i + 1..j]);
          i := j;
          continue;
        }
        assert !RefAt(path, i);
      }
      Associates(out, [path[i]], ExpandFrom(path, i + 1));
      out := out + [path[i]];
      i := i + 1;
    }
  }

  /** No dollar sign is followed by a word character. */
  predicate Quiet(s: string) {
    forall i | 0 <= i < |s| :: !RefAt(s, i)
  }

  lemma {:induction false} QuietIsUnchanged(s: string, i: nat)
    requires i <= |s| && Quiet(s)
    ensures ExpandFrom(s, i) == s[i..] && RefsFrom(s, i) == {}
    decreases |s| - i
  {
    if i < |s| {
      assert !RefAt(s, i);
      QuietIsUnchanged(s, i + 1);
    }
  }

  lemma QuietConcat(a: string, b: string)
    requires Quiet(a) && Quiet(b)
    requires a != "" && b != "" ==> a[|a| - 1] != '$' || !IsWord(b[0])
    ensures Quiet(a + b)
  {
    forall i | 0 <= i < |a + b| ensures !RefAt(a + b, i) {
      if i + 1 < |a| {
        assert !RefAt(a, i);
      } else if i >= |a| {
        assert !RefAt(b, i - |a|);
      }
    }
  }

  lemma BracketedIsQuiet(name: string)
    requires name != "" && forall k | 0 <= k < |name| :: IsWord(name[k])
    ensures Quiet(Bracketed(name))
  {
  }

  lemma AfterReference(name: string, rest: string)
    requires name != "" && (forall k | 0 <= k < |name| :: IsWord(name[k])) && Quiet(rest)
    ensures Quiet(Bracketed(name) + rest) && (Bracketed(name) + rest)[0] == '$'
  {
    BracketedIsQuiet(name);
    assert Bracketed(name)[|Bracketed(name)| - 1] == '}';
    QuietConcat(Bracketed(name), rest);
  }

  lemma AfterPlain(s: string, i: nat, rest: string)
    requires i < |s| && !RefAt(s, i) && Quiet(rest)
    requires if i + 1 < |s| then rest != "" && rest[0] == s[i + 1] else rest == ""
    ensures Quiet([s[i]] + rest)
  {
    QuietConcat([s[i]], rest);
  }

  /** What is left of a text after expansion holds no reference, and begins as the text did. */
  lemma {:induction false} ExpandedIsQuiet(s: string, i: nat)
    requires i <= |s|
    ensures var e := ExpandFrom(s, i); Quiet(e) && (i < |s| ==> e != "" && e[0] == s[i]) && (i == |s| ==> e == "")
    decreases |s| - i
  {
    if i < |s| {
      if RefAt(s, i) {
        var j := i + 1 + WordLength(s, i + 1);
        ExpandOneRef(s, i, j);
        ExpandedIsQuiet(s, j);
        AfterReference(s[i + 1..j], ExpandFrom(s, j));
      } else {
        ExpandedIsQuiet(s, i + 1);
        AfterPlain(s, i, ExpandFrom(s, i + 1));
      }
    }
  }

  /** Expanding twice is expanding once; texts without a reference, and so without a dollar sign, are left
      as they are, and those are all the texts left as they are. */
  lemma ExpandIsIdempotent(s: string)
    ensures Expand(Expand(s)) == Expand(s)
    ensures Expand(s) == s <==> Quiet(s)
    ensures '$' !in s ==> Expand(s) == s
  {
    ExpandedIsQuiet(s, 0);
    QuietIsUnchanged(Expand(s), 0);
    if Quiet(s) {
      QuietIsUnchanged(s, 0);
    }
  }

  // ---- which names a text refers to ----

  lemma NoDollarNoRefs(s: string)
    requires '$' !in s
    ensures Refs(s) == {}
  {
    QuietIsUnchanged(s, 0);
  }

  /** A dollar-free prefix and one reference to the end of the text. */
  lemma {:induction false} SingleRef(prefix: string, name: string, i: nat)
    requires '$' !in prefix && name != "" && i <= |prefix|
    requires forall k | 0 <= k < |name| :: IsWord(name[k])
    ensures RefsFrom(prefix + "$" + name, i) == {name}
    decreases |prefix| - i
  {
    var s := prefix + "$" + name;
    if i < |prefix| {
      assert s[i] == prefix[i];
      SingleRef(prefix, name, i + 1);
    } else {
      assert s[i] == '$' && s[i + 1] == name[0];
      var n := WordLength(s, i + 1);
      WordReachesEnd(s, i + 1);
      assert s[i + 1..] == name;
      assert s[i + 1..i + 1 + n] == name;
    }
  }

  lemma {:induction false} WordReachesEnd(s: string, i: nat)
    requires i <= |s| && forall k | i <= k < |s| :: IsWord(s[k])
    ensures WordLength(s, i) == |s| - i
    decreases |s| - i
  {
    if i < |s| {
      WordReachesEnd(s, i + 1);
    }
  }

  // ---- what a text means to the shell ----

  /** A bracketed reference begins the text: dollar sign, brace, a run of word characters, brace. */
  predicate BracketAt(s: string) {
    && 2 < |s| && s[0] == '$' && s[1] == '{'
    && WordLength(s, 2) > 0 && 2 + WordLength(s, 2) < |s| && s[2 + WordLength(s, 2)] == '}'
  }

  /** The text with the values put in for its references, with or without brackets. */
  function Substituted(s: string, val: string -> string): string {
    if s == "" then ""
    else if BracketAt(s) then
      var n := WordLength(s, 2);
      val(s[2..2 + n]) + Substituted(s[3 + n..], val)
    else if RefAt(s, 0) then
      var n := WordLength(s, 1);
      val(s[1..1 + n]) + Substituted(s[1 + n..], val)
    else [s[0]] + Substituted(s[1..], val)
  }

  /** A run of word characters is told by its end. */
  lemma {:induction false} WordIs(s: string, i: nat, n: nat)
    requires i + n <= |s| && (forall k | i <= k < i + n :: IsWord(s[k])) && (i + n < |s| ==> !IsWord(s[i + n]))
    ensures WordLength(s, i) == n
    decreases n
  {
    if n > 0 {
      WordIs(s, i + 1, n - 1);
    }
  }

  lemma ExpandPlain(s: string, i: nat)
    requires i < |s| && !RefAt(s, i)
    ensures ExpandFrom(s, i) == [s[i]] + ExpandFrom(s, i + 1)
  {
  }

  lemma WordIsNoReference(s: string, i: nat)
    requires i < |s| && IsWord(s[i])
    ensures !RefAt(s, i)
  {
  }

  /** Expansion copies a run of word characters. */
  lemma {:induction false} WordIsCopied(s: string, i: nat, n: nat)
    requires i + n <= |s| && forall k | i <= k < i + n :: IsWord(s[k])
    ensures ExpandFrom(s, i) == s[i..i + n] + ExpandFrom(s, i + n)
    decreases n
  {
    hide ExpandFrom, IsWord, RefAt, WordLength;
    if n == 0 {
      assert s[i..i] == "" && "" + ExpandFrom(s, i) == ExpandFrom(s, i);
    } else {
      assert !RefAt(s, i) by { WordIsNoReference(s, i); }
      ExpandPlain(s, i);
      WordIsCopied(s, i + 1, n - 1);
      Associates([s[i]], s[i + 1..i + n], ExpandFrom(s, i + n));
      assert s[i..i + n] == [s[i]] + s[i + 1..i + n];
    }
  }

  lemma BracketedMeans(name: string, rest: string, val: string -> string)
    requires name != "" && forall k | 0 <= k < |name| :: IsWord(name[k])
    ensures Substituted(Bracketed(name) + rest, val) == val(name) + Substituted(rest, val)
  {
    var s := Bracketed(name) + rest;
    var n := |name|;
    assert s[0] == '$' && s[1] == '{' && s[2 + n] == '}';
    assert s[2..2 + n] == name && s[3 + n..] == rest;
    assert forall k | 2 <= k < 2 + n :: s[k] == name[k - 2];
    WordIs(s, 2, n);
  }

  lemma BareMeans(s: string, i: nat, val: string -> string)
    requires i < |s| && RefAt(s, i)
    ensures var n := WordLength(s, i + 1);
      Substituted(s[i..], val) == val(s[i + 1..i + 1 + n]) + Substituted(s[i + 1 + n..], val)
  {
    var n, t := WordLength(s, i + 1), s[i..];
    WordIs(t, 1, n);
    assert t[1] == s[i + 1] && !BracketAt(t) && RefAt(t, 0);
    assert t[1..1 + n] == s[i + 1..i + 1 + n] && t[1 + n..] == s[i + 1 + n..];
  }

  /** What begins with a dollar sign, a brace and a word begins with a bracketed reference exactly when the word is
      not empty and a brace follows. */
  lemma BracketIff(e: string, word: string, rest: string)
    requires (forall k | 0 <= k < |word| :: IsWord(word[k])) && (rest != "" ==> !IsWord(rest[0]))
    requires e == ['$'] + (['{'] + (word + rest))
    ensures BracketAt(e) <==> word != "" && rest != "" && rest[0] == '}'
    ensures BracketAt(e) ==> e == Bracketed(word) + rest[1..]
  {
    var n := |word|;
    assert forall k | 2 <= k < 2 + n :: e[k] == word[k - 2];
    assert rest != "" ==> e[2 + n] == rest[0] && rest == [rest[0]] + rest[1..];
    WordIs(e, 2, n);
  }

  /** Where the text has a bracketed reference, so has its expansion, with the same name, and both go on after it;
      elsewhere neither has. */
  lemma BracketsAreKept(s: string, i: nat, e: string, t: string) returns (j: nat, name: string)
    requires i < |s| && !RefAt(s, i) && e == [s[i]] + ExpandFrom(s, i + 1) && t == s[i..]
    ensures BracketAt(e) <==> BracketAt(t)
    ensures BracketAt(t) ==> i < j <= |s| && name != "" && (forall k | 0 <= k < |name| :: IsWord(name[k]))
    ensures BracketAt(t) ==> e == Bracketed(name) + ExpandFrom(s, j) && t == Bracketed(name) + s[j..]
  {
    j, name := i, "";
    ExpandedIsQuiet(s, i + 1);
    if i + 1 < |s| && s[i] == '$' && s[i + 1] == '{' {
      ExpandPlain(s, i + 1);
      hide ExpandFrom, Quiet, RefAt, BracketAt;
      j, name := BracketsAfterBrace(s, i, e, t);
    }
  }

  lemma BracketsAfterBrace(s: string, i: nat, e: string, t: string) returns (j: nat, word: string)
    requires i + 1 < |s| && s[i] == '$' && s[i + 1] == '{' && e == ['$'] + (['{'] + ExpandFrom(s, i + 2)) && t == s[i..]
    ensures BracketAt(e) <==> BracketAt(t)
    ensures BracketAt(t) ==> i < j <= |s| && word != "" && (forall k | 0 <= k < |word| :: IsWord(word[k]))
    ensures BracketAt(t) ==> e == Bracketed(word) + ExpandFrom(s, j) && t == Bracketed(word) + s[j..]
  {
    hide ExpandFrom, BracketAt, RefAt, Quiet, WordLength, IsWord;
    var n := WordLength(s, i + 2);
    var at := i + 2 + n;
    word := s[i + 2..at];
    j := at + 1;
    var rest, tail := ExpandFrom(s, at), s[at..];
    BraceShape(s, i, word, tail);
    RestShape(s, at, rest, tail);
    WordIsCopied(s, i + 2, n);
    BracketIff(e, word, rest);
    BracketIff(t, word, tail);
  }

  lemma BraceShape(s: string, i: nat, word: string, tail: string)
    requires i + 2 + |word| <= |s| && s[i] == '$' && s[i + 1] == '{' && word == s[i + 2..i + 2 + |word|] && tail == s[i + 2 + |word|..]
    ensures s[i..] == [s[i]] + ([s[i + 1]] + (word + tail))
  {
  }

  lemma RestShape(s: string, j: nat, rest: string, tail: string)
    requires j <= |s| && rest == ExpandFrom(s, j) && tail == s[j..]
    ensures (rest == "" <==> tail == "") && (tail != "" ==> rest[0] == tail[0])
    ensures tail != "" ==> tail[1..] == s[j + 1..]
    ensures tail != "" && tail[0] == '}' ==> rest[1..] == ExpandFrom(s, j + 1)
  {
    ExpandedIsQuiet(s, j);
    if j < |s| && s[j] == '}' {
      ExpandPlain(s, j);
    }
  }

  lemma PlainMeans(s: string, val: string -> string)
    requires s != "" && !BracketAt(s) && !RefAt(s, 0)
    ensures Substituted(s, val) == [s[0]] + Substituted(s[1..], val)
  {
  }

  lemma {:induction false} ExpandFromKeepsMeaning(s: string, i: nat, val: string -> string)
    requires i <= |s|
    ensures Substituted(ExpandFrom(s, i), val) == Substituted(s[i..], val)
    decreases |s| - i, 1
  {
    hide Substituted, ExpandFrom, WordLength, RefAt, Bracketed, IsWord;
    if i == |s| {
      assert s[i..] == "" == ExpandFrom(s, i) by { AtEnd(s); }
    } else if RefAt(s, i) {
      var j, name := ReferenceStep(s, i, val);
      ExpandFromKeepsMeaning(s, j, val);
      BracketedMeans(name, ExpandFrom(s, j), val);
    } else {
      PlainKeepsMeaning(s, i, val);
    }
  }

  lemma AtEnd(s: string)
    ensures ExpandFrom(s, |s|) == ""
  {
  }

  lemma ReferenceStep(s: string, i: nat, val: string -> string) returns (j: nat, name: string)
    requires i < |s| && RefAt(s, i)
    ensures i < j <= |s| && name != "" && (forall k | 0 <= k < |name| :: IsWord(name[k]))
    ensures ExpandFrom(s, i) == Bracketed(name) + ExpandFrom(s, j)
    ensures Substituted(s[i..], val) == val(name) + Substituted(s[j..], val)
  {
    j := i + 1 + WordLength(s, i + 1);
    name := s[i + 1..j];
    ExpandOneRef(s, i, j);
    BareMeans(s, i, val);
  }

  lemma {:induction false} PlainKeepsMeaning(s: string, i: nat, val: string -> string)
    requires i < |s| && !RefAt(s, i)
    ensures Substituted(ExpandFrom(s, i), val) == Substituted(s[i..], val)
    decreases |s| - i, 0
  {
    var e, t := [s[i]] + ExpandFrom(s, i + 1), s[i..];
    ExpandPlain(s, i);
    NoReference(s, i);
    assert e[1..] == ExpandFrom(s, i + 1) && t[1..] == s[i + 1..];
    hide ExpandFrom, RefAt, Substituted, WordLength, BracketAt, Bracketed;
    var j, name := BracketsAreKept(s, i, e, t);
    if BracketAt(t) {
      ExpandFromKeepsMeaning(s, j, val);
      BracketedMeans(name, ExpandFrom(s, j), val);
      BracketedMeans(name, s[j..], val);
    } else {
      ExpandFromKeepsMeaning(s, i + 1, val);
      PlainMeans(e, val);
      PlainMeans(t, val);
    }
  }

  lemma NoReference(s: string, i: nat)
    requires i < |s| && !RefAt(s, i)
    ensures !RefAt([s[i]] + ExpandFrom(s, i + 1), 0) && !RefAt(s[i..], 0)
  {
    ExpandedIsQuiet(s, i + 1);
  }

  /** Bracketing the references changes nothing for the shell: whatever the variables hold, every text, with
      bracketed references of its own or without, comes out the same. */
  lemma ExpandKeepsMeaning(s: string, val: string -> string)
    ensures Substituted(Expand(s), val) == Substituted(s, val)
  {
    ExpandFromKeepsMeaning(s, 0, val);
    assert s[0..] == s;
  }
}
