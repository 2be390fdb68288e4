/** The string operations the deployment code leans on. */
module Text {

  predicate IsSpace(c: char) {
    c == '\t' || c == '\n' || c == '\r' || c == ' ' || c == '\U{0B}' || c == '\U{0C}' || c == '\U{85}' || c == '\U{A0}'
    || c == '\U{1680}' || '\U{2000}' <= c <= '\U{200A}' || c == '\U{2028}' || c == '\U{2029}' || c == '\U{202F}'
    || c == '\U{205F}' || c == '\U{3000}'
  }

  function TrimLeft(s: string): (t: string)
    ensures t == [] || !IsSpace(t[0])
  {
    if s != [] && IsSpace(s[0]) then TrimLeft(s[1..]) else s
  }

  function TrimRight(s: string): (t: string)
    ensures t <= s
    ensures t == [] || !IsSpace(t[|t| - 1])
  {
    if s != [] && IsSpace(s[|s| - 1]) then TrimRight(s[..|s| - 1]) else s
  }

  function Trim(s: string): string {
    TrimRight(TrimLeft(s))
  }

  /** Text that neither starts nor ends with white space is its own trimming. */
  lemma TrimIdentity(s: string)
    requires s == [] || (!IsSpace(s[0]) && !IsSpace(s[|s| - 1]))
    ensures Trim(s) == s
  {
  }

  /** The pieces between separators. */
  function Split(s: string, sep: char): (lines: seq<string>)
    ensures |lines| >= 1
  {
    if s == [] then [""]
    else if s[0] == sep then [""] + Split(s[1..], sep)
    else
      var rest := Split(s[1..], sep);
      [[s[0]] + rest[0]] + rest[1..]
  }

  function Join(lines: seq<string>, sep: char): string
    requires lines != []
  {
    if |lines| == 1 then lines[0] else lines[0] + [sep] + Join(lines[1..], sep)
  }

  lemma {:induction false} SplitLine(line: string, rest: string, sep: char)
    requires sep !in line
    ensures Split(line, sep) == [line]
    ensures Split(line + [sep] + rest, sep) == [line] + Split(rest, sep)
  {
    if line == [] {
      assert line + [sep] + rest == [sep] + rest;
      assert ([sep] + rest)[1..] == rest;
    } else {
      var s := line + [sep] + rest;
      assert s[1..] == line[1..] + [sep] + rest;
      assert line == [line[0]] + line[1..];
      SplitLine(line[1..], rest, sep);
    }
  }

  /** Joining pieces without the separator loses nothing. */
  lemma {:induction false} SplitJoin(lines: seq<string>, sep: char)
    requires lines != [] && forall k | 0 <= k < |lines| :: sep !in lines[k]
    ensures Split(Join(lines, sep), sep) == lines
  {
    if |lines| == 1 {
      SplitLine(lines[0], "", sep);
    } else {
      SplitLine(lines[0], Join(lines[1..], sep), sep);
      SplitJoin(lines[1..], sep);
    }
  }

  lemma {:induction false} PiecesHaveNoSeparator(s: string, sep: char)
    ensures forall k | 0 <= k < |Split(s, sep)| :: sep !in Split(s, sep)[k]
  {
    if s != [] {
      PiecesHaveNoSeparator(s[1..], sep);
    }
  }

  /** Joining and splitting gives the lines back exactly when none of them holds the separator. */
  lemma SplitJoinExactly(lines: seq<string>, sep: char)
    requires lines != []
    ensures Split(Join(lines, sep), sep) == lines <==> forall k | 0 <= k < |lines| :: sep !in lines[k]
  {
    PiecesHaveNoSeparator(Join(lines, sep), sep);
    if forall k | 0 <= k < |lines| :: sep !in lines[k] {
      SplitJoin(lines, sep);
    }
  }

  /** Splitting around a separator is splitting each side. */
  lemma {:induction false} SplitConcat(a: string, b: string, sep: char)
    ensures Split(a + [sep] + b, sep) == Split(a, sep) + Split(b, sep)
  {
    if a == [] {
      assert a + [sep] + b == [sep] + b;
      assert ([sep] + b)[1..] == b;
    } else {
      assert (a + [sep] + b)[1..] == a[1..] + [sep] + b;
      SplitConcat(a[1..], b, sep);
    }
  }

  predicate Blank(s: string) { forall k | 0 <= k < |s| :: IsSpace(s[k]) }

  lemma {:induction false} TrimLeftOfBlank(s: string)
    ensures TrimLeft(s) == "" <==> Blank(s)
  {
    if s != [] && IsSpace(s[0]) {
      TrimLeftOfBlank(s[1..]);
      assert Blank(s) <==> Blank(s[1..]) by {
        assert forall k | 0 < k < |s| :: s[k] == s[1..][k - 1];
      }
    }
  }

  lemma {:induction false} TrimRightOfBlank(s: string)
    ensures TrimRight(s) == "" <==> Blank(s)
  {
    if s != [] && IsSpace(s[|s| - 1]) {
      TrimRightOfBlank(s[..|s| - 1]);
    }
  }

  /** Trimming leaves nothing exactly when there is only white space. */
  lemma TrimOfBlank(s: string)
    ensures Trim(s) == "" <==> Blank(s)
  {
    TrimLeftOfBlank(s);
    TrimRightOfBlank(TrimLeft(s));
  }

  /** A text that is not blank has a line that is not. */
  lemma {:induction false} SomeLineIsNotBlank(s: string, sep: char) returns (k: nat)
    requires !Blank(s) && IsSpace(sep)
    ensures k < |Split(s, sep)| && !Blank(Split(s, sep)[k])
  {
    if s[0] == sep {
      assert !Blank(s[1..]) by {
        var j :| 0 <= j < |s| && !IsSpace(s[j]);
        assert s[1..][j - 1] == s[j];
      }
      var j := SomeLineIsNotBlank(s[1..], sep);
      k := j + 1;
    } else if IsSpace(s[0]) {
      assert !Blank(s[1..]) by {
        var j :| 0 <= j < |s| && !IsSpace(s[j]);
        assert s[1..][j - 1] == s[j];
      }
      k := SomeLineIsNotBlank(s[1..], sep);
      if k == 0 {
        var j :| 0 <= j < |Split(s[1..], sep)[0]| && !IsSpace(Split(s[1..], sep)[0][j]);
        assert Split(s, sep)[0][j + 1] == Split(s[1..], sep)[0][j];
      }
    } else {
      k := 0;
      assert Split(s, sep)[0][0] == s[0];
    }
  }
}
