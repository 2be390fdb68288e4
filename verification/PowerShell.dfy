/** Request bodies printed as PowerShell literals, and a reader of those literals. */
module PowerShell {
  import opened Decimal
  import opened Shell

  // ---- which strings are emitted bare ----

  predicate IdentStart(c: char) { IsAlpha(c) || c == '_' }

  /** The number of digits at the front of s. */
  function DigitRun(s: string): (n: nat)
    ensures n <= |s| && (forall k | 0 <= k < n :: IsDigit(s[k])) && (n < |s| ==> !IsDigit(s[n]))
  {
    if s != "" && IsDigit(s[0]) then 1 + DigitRun(s[1..]) else 0
  }

  /** An index: digits in square brackets. Its length, or 0. */
  function IndexLength(s: string): (n: nat)
    ensures n <= |s|
  {
    if s != "" && s[0] == '[' then
      var d := DigitRun(s[1..]);
      if d > 0 && 1 + d < |s| && s[1 + d] == ']' then d + 2 else 0
    else 0
  }

  /** What may follow the first identifier character: word characters, members and indices in any order. */
  predicate VarTail(s: string)
    decreases |s|
  {
    || s == ""
    || (IsWord(s[0]) && VarTail(s[1..]))
    || (s[0] == '.' && |s| >= 2 && IdentStart(s[1]) && VarTail(s[2..]))
    || (IndexLength(s) > 0 && VarTail(s[IndexLength(s)..]))
  }

  predicate IsVar(s: string) {
    |s| >= 2 && s[0] == '$' && IdentStart(s[1]) && VarTail(s[2..])
  }

  lemma {:induction false} SkipWords(s: string, n: nat)
    requires n <= |s| && forall k | 0 <= k < n :: IsWord(s[k])
    ensures VarTail(s) == VarTail(s[n..])
  {
    if n == 0 {
      assert s[0..] == s;
    } else {
      SkipWords(s[1..], n - 1);
      assert s[1..][n - 1..] == s[n..];
    }
  }

  /** One member of the chain, its name running to position n. */
  lemma MemberStep(s: string, n: nat)
    requires 2 <= n <= |s| && s[0] == '.' && IdentStart(s[1]) && forall k | 1 <= k < n :: IsWord(s[k])
    ensures VarTail(s) == VarTail(s[n..])
  {
    SkipWords(s[2..], n - 2);
    assert s[2..][n - 2..] == s[n..];
    assert VarTail(s) == VarTail(s[2..]);
  }

  lemma RunIs(s: string, n: nat)
    requires n <= |s| && (forall k | 0 <= k < n :: IsDigit(s[k])) && (n < |s| ==> !IsDigit(s[n]))
    ensures DigitRun(s) == n
  {
    assert forall d | 0 <= d < n :: IsDigit(s[d]);
    if n > 0 {
      RunIs(s[1..], n - 1);
    }
  }

  /** One bracketed part: n digits after the bracket. */
  lemma BracketStep(s: string, n: nat)
    requires s != "" && s[0] == '[' && n + 1 <= |s|
    requires (forall k | 1 <= k < n + 1 :: IsDigit(s[k])) && (n + 1 < |s| ==> !IsDigit(s[n + 1]))
    ensures IndexLength(s) == if n > 0 && n + 1 < |s| && s[n + 1] == ']' then n + 2 else 0
    ensures VarTail(s) == (n > 0 && n + 1 < |s| && s[n + 1] == ']' && VarTail(s[n + 2..]))
  {
    RunIs(s[1..], n);
  }

  // ---- the same steps, by position ----

  lemma WordAt(s: string, i: nat)
    requires i < |s| && IsWord(s[i])
    ensures VarTail(s[i..]) == VarTail(s[i + 1..])
  {
    assert s[i..][1..] == s[i + 1..];
  }

  lemma MemberAt(s: string, i: nat, end: nat)
    requires i + 2 <= end <= |s| && s[i] == '.' && IdentStart(s[i + 1]) && forall k | i < k < end :: IsWord(s[k])
    ensures VarTail(s[i..]) == VarTail(s[end..])
  {
    MemberStep(s[i..], end - i);
    assert s[i..][end - i..] == s[end..];
  }

  lemma BracketAt(s: string, i: nat, end: nat)
    requires i < end <= |s| && s[i] == '['
    requires (forall k | i < k < end :: IsDigit(s[k])) && (end < |s| ==> !IsDigit(s[end]))
    ensures VarTail(s[i..]) == (end > i + 1 && end < |s| && s[end] == ']' && VarTail(s[end + 1..]))
  {
    BracketStep(s[i..], end - i - 1);
    if end < |s| {
      assert s[i..][end - i + 1..] == s[end + 1..];
    }
  }

  lemma StopsAt(s: string, i: nat)
    requires i < |s| && !IsWord(s[i]) && s[i] != '['
    requires s[i] == '.' ==> i + 1 == |s| || !IdentStart(s[i + 1])
    ensures !VarTail(s[i..])
  {
  }

  /** The length of the run of digits that begins at i. */
  function DigitLength(s: string, i: nat): (n: nat)
    requires i <= |s|
    ensures i + n <= |s|
    ensures forall k | i <= k < i + n :: IsDigit(s[k])
    ensures i + n < |s| ==> !IsDigit(s[i + n])
    decreases |s| - i
  {
    if i < |s| && IsDigit(s[i]) then 1 + DigitLength(s, i + 1) else 0
  }

  method SkipDigits(s: string, i: nat) returns (j: nat)
    requires i <= |s|
    ensures j == i + DigitLength(s, i)
  {
    j := i;
    while j < |s| && IsDigit(s[j])
      invariant i <= j <= |s|
      invariant DigitLength(s, i) == j - i + DigitLength(s, j)
    {
      j := j + 1;
    }
  }

  /** Where one round of the scan gets to from i; i itself when it gives up. */
  function Advance(s: string, i: nat): (j: nat)
    requires i < |s|
    ensures i <= j <= |s|
  {
    if IsWord(s[i]) then i + 1
    else if s[i] == '.' then
      if i + 1 < |s| && IdentStart(s[i + 1]) then i + 1 + WordLength(s, i + 1) else i
    else if s[i] == '[' then
      var end := i + 1 + DigitLength(s, i + 1);
      if end > i + 1 && end < |s| && s[end] == ']' then end + 1 else i
    else i
  }

  predicate ScanFrom(s: string, i: nat)
    requires i <= |s|
    decreases |s| - i
  {
    i == |s| || (Advance(s, i) > i && ScanFrom(s, Advance(s, i)))
  }

  /** A round of the scan loses nothing. */
  lemma AdvanceKeepsTail(s: string, i: nat)
    requires i < |s|
    ensures VarTail(s[i..]) == (Advance(s, i) > i && VarTail(s[Advance(s, i)..]))
  {
    if IsWord(s[i]) {
      WordAt(s, i);
    } else if s[i] == '.' && i + 1 < |s| && IdentStart(s[i + 1]) {
      OneWord(s, i + 1);
      MemberAt(s, i, Advance(s, i));
    } else if s[i] == '[' {
      BracketAt(s, i, i + 1 + DigitLength(s, i + 1));
    } else {
      StopsAt(s, i);
    }
  }

  lemma OneWord(s: string, i: nat)
    requires i < |s| && IsWord(s[i])
    ensures WordLength(s, i) >= 1
  {
  }

  lemma {:induction false} ScanIsTail(s: string, i: nat)
    requires i <= |s|
    ensures ScanFrom(s, i) == VarTail(s[i..])
    decreases |s| - i
  {
    if i < |s| {
      AdvanceKeepsTail(s, i);
      if Advance(s, i) > i {
        ScanIsTail(s, Advance(s, i));
      }
    }
  }

  /** The scan: one pass with an index, a nested scan after each dot and each bracket. */
  method IsVarExpr(s: string) returns (ok: bool)
    ensures ok == IsVar(s)
  {
    if |s| < 2 || s[0] != '$' || !IdentStart(s[1]) {
      return false;
    }
    ScanIsTail(s, 2);
    ok := ScanTail(s, 2);
  }

  /** The scan's loop, from the second identifier character on. */
  method ScanTail(s: string, from: nat) returns (ok: bool)
    requires from <= |s|
    ensures ok == ScanFrom(s, from)
  {
    var i := from;
    while i < |s|
      invariant i <= |s|
      invariant ScanFrom(s, from) == ScanFrom(s, i)
      decreases |s| - i
    {
      if IsWord(s[i]) {
        i := i + 1;
      } else if s[i] == '.' {
        ghost var dot := i;
        i := i + 1;
        if i >= |s| || !IdentStart(s[i]) { return false; }
        i := SkipWord(s, i);
        OneWord(s, dot + 1);
        assert Advance(s, dot) == i;
      } else if s[i] == '[' {
        i := i + 1;
        var start := i;
        i := SkipDigits(s, i);
        if i == start || i >= |s| || s[i] != ']' { return false; }
        i := i + 1;
        assert Advance(s, start - 1) == i;
      } else {
        return false;
      }
    }
    return true;
  }

  // ---- the documented language ----

  datatype Segment = Member(name: string) | Index(digits: string)

  predicate Ident(s: string) { s != "" && IdentStart(s[0]) && forall k | 0 <= k < |s| :: IsWord(s[k]) }

  predicate GoodSegment(g: Segment) {
    if g.Member? then Ident(g.name) else g.digits != "" && AllDigits(g.digits)
  }

  function Spell(g: Segment): string {
    if g.Member? then "." + g.name else "[" + g.digits + "]"
  }

  function SpellAll(segments: seq<Segment>): string {
    if segments == [] then "" else Spell(segments[0]) + SpellAll(segments[1..])
  }

  predicate GoodSegments(segments: seq<Segment>) { forall k | 0 <= k < |segments| :: GoodSegment(segments[k]) }

  /** A dollar sign, an identifier and a chain of members and indices. */
  ghost predicate Documented(s: string) {
    exists name: string, segments: seq<Segment> :: Ident(name) && GoodSegments(segments) && s == "$" + name + SpellAll(segments)
  }

  /** No index runs straight into a word. */
  predicate Separated(s: string) {
    forall i | 0 <= i < |s| - 1 && s[i] == ']' :: !IsWord(s[i + 1])
  }

  lemma {:induction false} SegmentsAreTail(segments: seq<Segment>)
    requires GoodSegments(segments)
    ensures VarTail(SpellAll(segments)) && Separated(SpellAll(segments))
    ensures SpellAll(segments) != "" ==> !IsWord(SpellAll(segments)[0])
  {
    if segments != [] {
      var g, rest := segments[0], SpellAll(segments[1..]);
      SegmentsAreTail(segments[1..]);
      assert GoodSegment(g);
      if g.Member? {
        MemberThenTail(g.name, rest);
      } else {
        IndexThenTail(g.digits, rest);
      }
    }
  }

  lemma MemberThenTail(name: string, rest: string)
    requires Ident(name) && VarTail(rest) && Separated(rest)
    ensures VarTail("." + name + rest) && Separated("." + name + rest)
  {
    var s := "." + name + rest;
    assert s[1] == name[0] && forall k | 1 <= k < 1 + |name| :: s[k] == name[k - 1];
    MemberStep(s, 1 + |name|);
    assert s[1 + |name|..] == rest;
    assert forall i | 0 <= i < |rest| :: s[1 + |name| + i] == rest[i];
    forall i | 0 <= i < |s| - 1 && s[i] == ']' ensures !IsWord(s[i + 1]) {
      assert i > |name| && rest[i - 1 - |name|] == ']';
    }
  }

  lemma IndexThenTail(digits: string, rest: string)
    requires digits != "" && AllDigits(digits) && VarTail(rest) && Separated(rest) && (rest != "" ==> !IsWord(rest[0]))
    ensures VarTail("[" + digits + "]" + rest) && Separated("[" + digits + "]" + rest)
  {
    IndexIsTail(digits, rest);
    IndexIsSeparated(digits, rest);
  }

  lemma IndexIsTail(digits: string, rest: string)
    requires digits != "" && AllDigits(digits) && VarTail(rest)
    ensures VarTail("[" + digits + "]" + rest)
  {
    var s := "[" + digits + "]" + rest;
    assert forall k | 1 <= k < 1 + |digits| :: s[k] == digits[k - 1];
    BracketStep(s, |digits|);
    assert s[|digits| + 2..] == rest;
  }

  lemma IndexIsSeparated(digits: string, rest: string)
    requires AllDigits(digits) && Separated(rest) && (rest != "" ==> !IsWord(rest[0]))
    ensures Separated("[" + digits + "]" + rest)
  {
    var s := "[" + digits + "]" + rest;
    assert forall k | 1 <= k < 1 + |digits| :: s[k] == digits[k - 1];
    assert forall i | 0 <= i < |rest| :: s[|digits| + 2 + i] == rest[i];
    forall i | 0 <= i < |s| - 1 && s[i] == ']' ensures !IsWord(s[i + 1]) {
      assert i > |digits|;
      assert i > |digits| + 1 ==> rest[i - 2 - |digits|] == ']';
    }
  }

  lemma SuffixIsSeparated(s: string, n: nat)
    requires n <= |s| && Separated(s)
    ensures Separated(s[n..])
  {
    var t := s[n..];
    forall i | 0 <= i < |t| - 1 && t[i] == ']' ensures !IsWord(t[i + 1]) {
      assert s[n + i] == ']';
    }
  }

  lemma FirstMember(s: string) returns (g: Segment, n: nat)
    requires s != "" && VarTail(s) && s[0] == '.'
    ensures 0 < n <= |s| && GoodSegment(g) && Spell(g) == s[..n]
    ensures VarTail(s[n..]) && (n < |s| ==> !IsWord(s[n]))
  {
    n := 1 + WordLength(s, 1);
    OneWord(s, 1);
    g := Member(s[1..n]);
    MemberStep(s, n);
  }

  lemma FirstIndex(s: string) returns (g: Segment, n: nat)
    requires s != "" && VarTail(s) && Separated(s) && !IsWord(s[0]) && s[0] != '.'
    ensures 0 < n <= |s| && GoodSegment(g) && Spell(g) == s[..n]
    ensures VarTail(s[n..]) && (n < |s| ==> !IsWord(s[n]))
  {
    n := IndexLength(s);
    BracketText(s);
    g := Index(s[1..n - 1]);
    assert Spell(g) == "[" + s[1..n - 1] + "]" == s[..n];
    assert s[n - 1] == ']';
  }

  lemma BracketText(s: string)
    requires IndexLength(s) > 0
    ensures var n := IndexLength(s); n >= 3 && s[0] == '[' && s[n - 1] == ']' && forall k | 1 <= k < n - 1 :: IsDigit(s[k])
  {
    var rest := s[1..];
    var d := DigitRun(rest);
    forall k | 1 <= k < d + 1 ensures IsDigit(s[k]) {
      assert s[k] == rest[k - 1] && IsDigit(rest[k - 1]);
    }
  }

  /** The first segment of a tail. */
  lemma FirstSegment(s: string) returns (g: Segment, n: nat)
    requires s != "" && VarTail(s) && Separated(s) && !IsWord(s[0])
    ensures 0 < n <= |s| && GoodSegment(g) && Spell(g) == s[..n]
    ensures VarTail(s[n..]) && (n < |s| ==> !IsWord(s[n]))
  {
    if s[0] == '.' {
      g, n := FirstMember(s);
    } else {
      g, n := FirstIndex(s);
    }
  }

  /** A separated tail that does not begin inside a word is a chain of segments. */
  lemma {:induction false} TailIsSegments(s: string) returns (segments: seq<Segment>)
    requires VarTail(s) && Separated(s) && (s != "" ==> !IsWord(s[0]))
    ensures GoodSegments(segments) && s == SpellAll(segments)
    decreases |s|
  {
    if s == "" {
      return [];
    }
    var g, n := FirstSegment(s);
    SuffixIsSeparated(s, n);
    var rest := TailIsSegments(s[n..]);
    segments := [g] + rest;
    assert segments[1..] == rest;
    assert s == s[..n] + s[n..];
  }

  lemma DocumentedIsAccepted(name: string, segments: seq<Segment>)
    requires Ident(name) && GoodSegments(segments)
    ensures var s := "$" + name + SpellAll(segments); IsVar(s) && Separated(s)
  {
    var tail := SpellAll(segments);
    SegmentsAreTail(segments);
    NameThenTail(name, tail);
  }

  lemma NameThenTail(name: string, tail: string)
    requires Ident(name) && VarTail(tail) && Separated(tail)
    ensures IsVar("$" + name + tail) && Separated("$" + name + tail)
  {
    var s := "$" + name + tail;
    assert s[1] == name[0] && forall k | 1 <= k < 1 + |name| :: s[k] == name[k - 1];
    SkipWords(s[2..], |name| - 1);
    assert s[2..][|name| - 1..] == tail;
    assert forall i | 0 <= i < |tail| :: s[1 + |name| + i] == tail[i];
    forall i | 0 <= i < |s| - 1 && s[i] == ']' ensures !IsWord(s[i + 1]) {
      assert i > |name| && tail[i - 1 - |name|] == ']';
    }
  }

  lemma AcceptedIsDocumented(s: string)
    requires IsVar(s) && Separated(s)
    ensures Documented(s)
  {
    var n := 1 + WordLength(s, 1);
    assert IsWord(s[1]) && n >= 2;
    assert s[2..][n - 2..] == s[n..];
    SkipWords(s[2..], n - 2);
    SuffixIsSeparated(s, n);
    var segments := TailIsSegments(s[n..]);
    assert Ident(s[1..n]);
    assert s == "$" + s[1..n] + s[n..];
  }

  /** The scan accepts the documented language and, beyond it, exactly the strings in which a word character
      follows an index directly. */
  lemma DocumentedExactly(s: string)
    ensures Documented(s) <==> IsVar(s) && Separated(s)
  {
    if Documented(s) {
      var name, segments :| Ident(name) && GoodSegments(segments) && s == "$" + name + SpellAll(segments);
      DocumentedIsAccepted(name, segments);
    }
    if IsVar(s) && Separated(s) {
      AcceptedIsDocumented(s);
    }
  }
}
