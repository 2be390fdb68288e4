/** The remote-kickstart boot command: its text, its keystrokes, and what GRUB's console receives. */
module BootCommand {
  import opened Text
  import opened Keystrokes
  import opened Topology
  import HyperV
  import VSphere
  import Vnc

  function IpKernelArg(ip: string, gateway: string, netmask: string, hostname: string): string {
    if ip == "" then "ip=dhcp"
    else "ip=" + ip + "::" + gateway + ":" + netmask + ":" + hostname + "::none"
  }

  const LABEL_VSA := "VeeamSA"
  const LABEL_VIA := "VeeamJeOS"
  const TAIL := " quiet inst.assumeyes"

  function Kernel(volume: string): string {
    "linuxefi " + "/images/pxeboot/vmlinuz " + "inst.stage2=hd:LABEL=" + volume
  }

  function LinuxLine(role: string, ksUrl: string, ipArg: string, singleDisk: bool): string {
    (if IsVSA(role) then
       Kernel(LABEL_VSA) + " fips=1 inst.ks=" + ksUrl
     else
       Kernel(LABEL_VIA) + " inst.ks=" + ksUrl + (if singleDisk then " inst.vsingledisk" else ""))
    + " " + ipArg + TAIL
  }

  function InitrdLine(): string { "initrdefi " + "/images/pxeboot/initrd.img" }

  function BootLines(role: string, ksUrl: string, ipArg: string, singleDisk: bool): seq<string> {
    [LinuxLine(role, ksUrl, ipArg, singleDisk), InitrdLine(), "boot"]
  }

  function BootCommandText(role: string, ksUrl: string, ipArg: string, singleDisk: bool): string {
    Join(BootLines(role, ksUrl, ipArg, singleDisk), '\n')
  }

  // ---- keystrokes ----

  /** The lines that are typed: trimmed, without the empty ones. */
  function TypedLines(lines: seq<string>): seq<string> {
    if lines == [] then []
    else (if Trim(lines[0]) == "" then [] else [Trim(lines[0])]) + TypedLines(lines[1..])
  }

  function LineKeys(lines: seq<string>): seq<string> {
    if lines == [] then [] else Tokens(lines[0]) + ["ret"] + LineKeys(lines[1..])
  }

  method BootKeysFromLines(lines: seq<string>) returns (keys: seq<string>)
    ensures keys == ["c"] + LineKeys(TypedLines(lines))
  {
    keys := ["c"];
    for i := 0 to |lines|
      invariant keys == ["c"] + LineKeys(TypedLines(lines[..i]))
    {
      OneMoreLine(lines, i);
      ghost var body := LineKeys(TypedLines(lines[..i]));
      var l := Trim(lines[i]);
      if l == "" { continue; }
      var typed := KeysForText(l);
      Associate(["c"], body, typed, ["ret"]);
      keys := keys + typed;
      keys := keys + ["ret"];
    }
    assert lines[..|lines|] == lines;
  }

  lemma Associate<T>(a: seq<T>, b: seq<T>, c: seq<T>, d: seq<T>)
    ensures a + b + c + d == a + (b + (c + d))
  {
  }

  /** What the next line adds to the keys. */
  lemma OneMoreLine(lines: seq<string>, i: nat)
    requires i < |lines|
    ensures var before := LineKeys(TypedLines(lines[..i])); var l := Trim(lines[i]);
      LineKeys(TypedLines(lines[..i + 1])) == if l == "" then before else before + (Tokens(l) + ["ret"])
  {
    assert lines[..i + 1] == lines[..i] + [lines[i]];
    TypedLinesSnoc(lines[..i], lines[i]);
    if Trim(lines[i]) == "" {
      assert TypedLines(lines[..i]) + [] == TypedLines(lines[..i]);
    } else {
      LineKeysSnoc(TypedLines(lines[..i]), Trim(lines[i]));
    }
  }

  lemma {:induction false} TypedLinesSnoc(lines: seq<string>, l: string)
    ensures TypedLines(lines + [l]) == TypedLines(lines) + (if Trim(l) == "" then [] else [Trim(l)])
  {
    if lines == [] {
      assert [l][1..] == [];
      assert lines + [l] == [l];
    } else {
      assert (lines + [l])[1..] == lines[1..] + [l];
      TypedLinesSnoc(lines[1..], l);
    }
  }

  lemma {:induction false} LineKeysSnoc(lines: seq<string>, l: string)
    ensures LineKeys(lines + [l]) == LineKeys(lines) + (Tokens(l) + ["ret"])
  {
    if lines == [] {
      assert [l][1..] == [];
      assert lines + [l] == [l];
    } else {
      assert (lines + [l])[1..] == lines[1..] + [l];
      LineKeysSnoc(lines[1..], l);
      assert LineKeys(lines + [l]) == Tokens(lines[0]) + ["ret"] + (LineKeys(lines[1..]) + (Tokens(l) + ["ret"]));
    }
  }

  method BootCommandKeys(role: string, ksUrl: string, ipArg: string, singleDisk: bool) returns (keys: seq<string>)
    ensures keys == ["c"] + LineKeys(TypedLines(BootLines(role, ksUrl, ipArg, singleDisk)))
  {
    keys := BootKeysFromLines(BootLines(role, ksUrl, ipArg, singleDisk));
  }

  method BootCommandKeysFromText(text: string) returns (keys: seq<string>)
    ensures keys == ["c"] + LineKeys(TypedLines(Split(text, '\n')))
  {
    keys := BootKeysFromLines(Split(text, '\n'));
  }

  // ---- the text box and the generated command agree ----

  lemma KernelIsOneLine(volume: string)
    requires '\n' !in volume
    ensures '\n' !in Kernel(volume)
    ensures Kernel(volume)[0] == 'l'
  {
    assert '\n' !in "linuxefi " && '\n' !in "/images/pxeboot/vmlinuz ";
    assert '\n' !in "linuxefi " + "/images/pxeboot/vmlinuz ";
    assert '\n' !in "inst.stage2=hd:LABEL=";
    assert "linuxefi "[0] == 'l';
  }

  lemma LinuxLineIsOneLine(role: string, ksUrl: string, ipArg: string, singleDisk: bool)
    ensures '\n' !in LinuxLine(role, ksUrl, ipArg, singleDisk) <==> '\n' !in ksUrl && '\n' !in ipArg
  {
    KernelIsOneLine(LABEL_VSA);
    KernelIsOneLine(LABEL_VIA);
    if '\n' !in ksUrl && '\n' !in ipArg {
      assert '\n' !in Kernel(LABEL_VSA) + " fips=1 inst.ks=" + ksUrl;
      assert '\n' !in Kernel(LABEL_VIA) + " inst.ks=" + ksUrl + (if singleDisk then " inst.vsingledisk" else "");
      assert '\n' !in " " + ipArg + TAIL;
    }
  }

  lemma InitrdIsOneLine()
    ensures '\n' !in InitrdLine()
  {
    assert '\n' !in "initrdefi " && '\n' !in "/images/pxeboot/initrd.img";
  }

  lemma IpArgIsOneLine(ip: string, gateway: string, netmask: string, hostname: string)
    ensures '\n' !in IpKernelArg(ip, gateway, netmask, hostname)
        <==> ip == "" || ('\n' !in ip && '\n' !in gateway && '\n' !in netmask && '\n' !in hostname)
  {
  }

  lemma LinuxLineIsTrimmed(role: string, ksUrl: string, ipArg: string, singleDisk: bool)
    ensures var l := LinuxLine(role, ksUrl, ipArg, singleDisk);
      Trim(l) == l && l != "" && !IsSpace(l[0]) && !IsSpace(l[|l| - 1])
  {
    var l := LinuxLine(role, ksUrl, ipArg, singleDisk);
    KernelIsOneLine(LABEL_VSA);
    KernelIsOneLine(LABEL_VIA);
    assert TAIL[|TAIL| - 1] == 's';
    assert l[|l| - 1] == TAIL[|TAIL| - 1];
    assert l[0] == if IsVSA(role) then Kernel(LABEL_VSA)[0] else Kernel(LABEL_VIA)[0];
    TrimIdentity(l);
  }

  lemma LastLinesAreTyped()
    ensures TypedLines([InitrdLine(), "boot"]) == [InitrdLine(), "boot"]
  {
    var i := InitrdLine();
    assert i[0] == "initrdefi "[0] == 'i';
    assert i[|i| - 1] == "/images/pxeboot/initrd.img"[25] == 'g';
    TrimIdentity(i);
    assert "boot"[0] == 'b' && "boot"[3] == 't';
    TrimIdentity("boot");
    assert [i, "boot"][1..] == ["boot"] && ["boot"][1..] == [];
    assert TypedLines(["boot"]) == ["boot"];
  }

  /** The three generated lines are typed as they are: none is empty, none loses a character to trimming. */
  lemma GeneratedLinesAreTyped(role: string, ksUrl: string, ipArg: string, singleDisk: bool)
    ensures var lines := BootLines(role, ksUrl, ipArg, singleDisk); TypedLines(lines) == lines
  {
    var lines := BootLines(role, ksUrl, ipArg, singleDisk);
    LinuxLineIsTrimmed(role, ksUrl, ipArg, singleDisk);
    LastLinesAreTyped();
    assert lines[1..] == [InitrdLine(), "boot"];
  }

  lemma {:induction false} TypedLinesConcat(a: seq<string>, b: seq<string>)
    ensures TypedLines(a + b) == TypedLines(a) + TypedLines(b)
  {
    if a == [] {
      assert a + b == b;
    } else {
      assert (a + b)[1..] == a[1..] + b;
      TypedLinesConcat(a[1..], b);
    }
  }

  /** A text that is not blank has something to type. */
  lemma NotBlankIsTyped(s: string)
    requires !Blank(s)
    ensures |TypedLines(Split(s, '\n'))| >= 1
  {
    var k := SomeLineIsNotBlank(s, '\n');
    TrimOfBlank(Split(s, '\n')[k]);
    assert Split(s, '\n') == Split(s, '\n')[..k] + ([Split(s, '\n')[k]] + Split(s, '\n')[k + 1..]);
    TypedLinesConcat(Split(s, '\n')[..k], [Split(s, '\n')[k]] + Split(s, '\n')[k + 1..]);
  }

  /** A line with a newline in its middle is typed as two lines at least. */
  lemma BrokenLineCounts(line: string)
    requires line != "" && !IsSpace(line[0]) && !IsSpace(line[|line| - 1]) && '\n' in line
    ensures |TypedLines(Split(line, '\n'))| >= 2
  {
    var k :| 0 <= k < |line| && line[k] == '\n';
    var a, b := line[..k], line[k + 1..];
    assert line == a + "\n" + b;
    SplitConcat(a, b, '\n');
    TypedLinesConcat(Split(a, '\n'), Split(b, '\n'));
    assert a[0] == line[0] && b[|b| - 1] == line[|line| - 1];
    NotBlankIsTyped(a);
    NotBlankIsTyped(b);
  }

  /** Equal keys come from equally many typed lines. */
  lemma KeysCountLines(a: seq<string>, b: seq<string>)
    requires LineKeys(a) == LineKeys(b)
    ensures |a| == |b|
  {
    KeysSplitIntoLines(a);
    KeysSplitIntoLines(b);
    AllTokensLength(a);
    AllTokensLength(b);
  }

  lemma {:induction false} AllTokensLength(lines: seq<string>)
    ensures |AllTokens(lines)| == |lines|
  {
    if lines != [] {
      AllTokensLength(lines[1..]);
    }
  }

  /** A newline in an argument makes the text box type a line more than the generated command. */
  lemma NewlineAddsALine(role: string, ksUrl: string, ipArg: string, singleDisk: bool)
    requires '\n' in LinuxLine(role, ksUrl, ipArg, singleDisk)
    ensures |TypedLines(Split(BootCommandText(role, ksUrl, ipArg, singleDisk), '\n'))| > 3
  {
    var line := LinuxLine(role, ksUrl, ipArg, singleDisk);
    LinuxLineIsTrimmed(role, ksUrl, ipArg, singleDisk);
    BrokenLineCounts(line);
    InitrdIsOneLine();
    var last := [InitrdLine(), "boot"];
    assert BootLines(role, ksUrl, ipArg, singleDisk)[1..] == last;
    SplitJoin(last, '\n');
    SplitConcat(line, Join(last, '\n'), '\n');
    TypedLinesConcat(Split(line, '\n'), last);
    LastLinesAreTyped();
  }

  /** The text box splits into the generated lines, and typing it gives the keys of the generated command,
      exactly when neither argument holds a newline. */
  lemma UneditedTextGivesSameKeys(role: string, ksUrl: string, ipArg: string, singleDisk: bool)
    ensures var lines := BootLines(role, ksUrl, ipArg, singleDisk); var text := BootCommandText(role, ksUrl, ipArg, singleDisk);
      && (Split(text, '\n') == lines <==> '\n' !in ksUrl && '\n' !in ipArg)
      && (LineKeys(TypedLines(Split(text, '\n'))) == LineKeys(TypedLines(lines)) <==> '\n' !in ksUrl && '\n' !in ipArg)
  {
    var lines, text := BootLines(role, ksUrl, ipArg, singleDisk), BootCommandText(role, ksUrl, ipArg, singleDisk);
    LinuxLineIsOneLine(role, ksUrl, ipArg, singleDisk);
    InitrdIsOneLine();
    SplitJoinExactly(lines, '\n');
    GeneratedLinesAreTyped(role, ksUrl, ipArg, singleDisk);
    assert lines[0] == LinuxLine(role, ksUrl, ipArg, singleDisk);
    if '\n' in lines[0] {
      NewlineAddsALine(role, ksUrl, ipArg, singleDisk);
      if LineKeys(TypedLines(Split(text, '\n'))) == LineKeys(lines) {
        KeysCountLines(TypedLines(Split(text, '\n')), lines);
      }
    }
  }

  /** For the arguments a node's network settings give: a newline in a setting that is used is what breaks the
      text box, and nothing else does. */
  lemma SettingsGiveSameKeys(role: string, ksUrl: string, ip: string, gateway: string, netmask: string, hostname: string, singleDisk: bool)
    ensures var ipArg := IpKernelArg(ip, gateway, netmask, hostname);
      LineKeys(TypedLines(Split(BootCommandText(role, ksUrl, ipArg, singleDisk), '\n')))
      == LineKeys(TypedLines(BootLines(role, ksUrl, ipArg, singleDisk)))
      <==> '\n' !in ksUrl && (ip == "" || ('\n' !in ip && '\n' !in gateway && '\n' !in netmask && '\n' !in hostname))
  {
    IpArgIsOneLine(ip, gateway, netmask, hostname);
    UneditedTextGivesSameKeys(role, ksUrl, IpKernelArg(ip, gateway, netmask, hostname), singleDisk);
  }

  // ---- what the console receives ----

  function Console(lines: seq<string>): string {
    if lines == [] then "" else Typed(lines[0]) + "\n" + Console(lines[1..])
  }

  /** Whatever back end types correctly, the console sees the lines one by one, each followed by Enter. */
  lemma {:induction false} LinesReachConsole<E>(step: (Keyboard, E) -> Keyboard, one: string -> seq<E>, lines: seq<string>, text: string)
    requires forall c | Typeable(c) :: Types(step, one, Token(c), c)
    requires Types(step, one, "ret", '\n')
    ensures Play(step, Idle(text), Emit(one, LineKeys(lines))) == Idle(text + Console(lines))
  {
    if lines == [] {
      assert text + "" == text;
    } else {
      var t := Tokens(lines[0]);
      var rest := LineKeys(lines[1..]);
      EmitConcat(one, t + ["ret"], rest);
      PlayConcat(step, Idle(text), Emit(one, t + ["ret"]), Emit(one, rest));
      LineReachesConsole(step, one, lines[0], text);
      LinesReachConsole(step, one, lines[1..], text + Typed(lines[0]) + "\n");
      assert text + Typed(lines[0]) + "\n" + Console(lines[1..]) == text + Console(lines);
    }
  }

  lemma LineReachesConsole<E>(step: (Keyboard, E) -> Keyboard, one: string -> seq<E>, line: string, text: string)
    requires forall c | Typeable(c) :: Types(step, one, Token(c), c)
    requires Types(step, one, "ret", '\n')
    ensures Play(step, Idle(text), Emit(one, Tokens(line) + ["ret"])) == Idle(text + Typed(line) + "\n")
  {
    var t := Tokens(line);
    EmitConcat(one, t, ["ret"]);
    assert ["ret"][1..] == [];
    assert Emit(one, ["ret"]) == one("ret") + [] == one("ret");
    PlayConcat(step, Idle(text), Emit(one, t), one("ret"));
    TypesText(step, one, line, text);
    assert text + Typed(line) + "\n" == text + Typed(line) + ['\n'];
  }

  /** On every hypervisor the boot keys open the console with "c" and enter the trimmed non-empty lines; the
      three translations agree and leave no key held. */
  lemma AllBackEndsAgree(lines: seq<string>)
    ensures var keys := ["c"] + LineKeys(TypedLines(lines)); var seen := Idle("c" + Console(TypedLines(lines)));
      && Play(HyperV.Receive, Idle(""), Emit(HyperV.Scancodes, keys)) == seen
      && Play(VSphere.Receive, Idle(""), Emit(VSphere.Events, keys)) == seen
      && Play(Vnc.Receive, Idle(""), Emit(Vnc.Events, keys)) == seen
  {
    var typed := TypedLines(lines);
    forall c | Typeable(c)
      ensures Types(HyperV.Receive, HyperV.Scancodes, Token(c), c)
      ensures Types(VSphere.Receive, VSphere.Events, Token(c), c)
      ensures Types(Vnc.Receive, Vnc.Events, Token(c), c)
    {
      HyperV.CharTypes(c);
      VSphere.CharTypes(c);
      Vnc.CharTypes(c);
    }
    HyperV.EnterTypes();
    VSphere.EnterTypes();
    Vnc.EnterTypes();
    OpensWithC(HyperV.Receive, HyperV.Scancodes, typed);
    OpensWithC(VSphere.Receive, VSphere.Events, typed);
    OpensWithC(Vnc.Receive, Vnc.Events, typed);
  }

  lemma OpensWithC<E>(step: (Keyboard, E) -> Keyboard, one: string -> seq<E>, typed: seq<string>)
    requires forall c | Typeable(c) :: Types(step, one, Token(c), c)
    requires Types(step, one, "ret", '\n')
    ensures Play(step, Idle(""), Emit(one, ["c"] + LineKeys(typed))) == Idle("c" + Console(typed))
  {
    assert Token('c') == "c";
    TypesFirst(step, one, 'c', LineKeys(typed), "");
    assert "" + ['c'] == "c";
    LinesReachConsole(step, one, typed, "c");
  }

  // ---- what arrives unchanged ----

  lemma {:induction false} MappedTextIsVerbatim(s: string)
    ensures |Typed(s)| <= |s|
    ensures (forall i | 0 <= i < |s| :: Typeable(s[i])) ==> Typed(s) == s
    ensures (exists i :: 0 <= i < |s| && !Typeable(s[i])) ==> |Typed(s)| < |s|
  {
    if s != [] {
      assert s == [s[0]] + s[1..];
      assert forall i | 0 < i < |s| :: s[i] == s[1..][i - 1];
      MappedTextIsVerbatim(s[1..]);
    }
  }

  /** The lines themselves, each followed by Enter. */
  function Verbatim(lines: seq<string>): string {
    if lines == [] then "" else lines[0] + "\n" + Verbatim(lines[1..])
  }

  lemma {:induction false} ConsoleLoses(lines: seq<string>)
    ensures |Console(lines)| <= |Verbatim(lines)|
    ensures (exists l, i :: l in lines && 0 <= i < |l| && !Typeable(l[i])) ==> |Console(lines)| < |Verbatim(lines)|
  {
    if lines != [] {
      MappedTextIsVerbatim(lines[0]);
      ConsoleLoses(lines[1..]);
      assert forall l | l in lines :: l == lines[0] || l in lines[1..];
    }
  }

  lemma {:induction false} MappedLinesArrive(lines: seq<string>)
    requires forall l, i | l in lines && 0 <= i < |l| :: Typeable(l[i])
    ensures Console(lines) == Verbatim(lines)
  {
    if lines != [] {
      MappedTextIsVerbatim(lines[0]);
      assert lines[0] in lines && forall l | l in lines[1..] :: l in lines;
      MappedLinesArrive(lines[1..]);
    }
  }

  /** The console receives the typed lines verbatim exactly when every character of theirs has a key. */
  lemma ConsoleIsVerbatimExactly(lines: seq<string>)
    ensures Console(lines) == Verbatim(lines) <==> forall l, i | l in lines && 0 <= i < |l| :: Typeable(l[i])
  {
    ConsoleLoses(lines);
    if forall l, i | l in lines && 0 <= i < |l| :: Typeable(l[i]) {
      MappedLinesArrive(lines);
    }
  }

  // ---- splitting the keys again ----

  /** The key sequence cut at each Enter. */
  function CutAtEnter(keys: seq<string>, line: seq<string>): seq<seq<string>> {
    if keys == [] then []
    else if keys[0] == "ret" then [line] + CutAtEnter(keys[1..], [])
    else CutAtEnter(keys[1..], line + [keys[0]])
  }

  function AllTokens(lines: seq<string>): seq<seq<string>> {
    if lines == [] then [] else [Tokens(lines[0])] + AllTokens(lines[1..])
  }

  lemma TokenIsNotEnter(c: char)
    requires Typeable(c)
    ensures Token(c) != "ret"
  {
    TokenParts(c);
    if NeedsShift(c) {
      assert Token(c)[0] == 's';
    } else {
      assert |Token(c)| == 3 ==> Token(c)[0] != 'r';
    }
  }

  /** Tokens up to the next Enter belong to the line being cut. */
  lemma {:induction false} TokensStayInLine(s: string, rest: seq<string>, line: seq<string>)
    ensures CutAtEnter(Tokens(s) + rest, line) == CutAtEnter(rest, line + Tokens(s))
  {
    if s == [] {
      assert Tokens(s) + rest == rest && line + Tokens(s) == line;
    } else if !Typeable(s[0]) {
      assert Tokens(s) == Tokens(s[1..]);
      TokensStayInLine(s[1..], rest, line);
    } else {
      var t := Token(s[0]);
      TokenIsNotEnter(s[0]);
      var all := Tokens(s) + rest;
      assert all[0] == t && all[1..] == Tokens(s[1..]) + rest;
      TokensStayInLine(s[1..], rest, line + [t]);
      assert line + [t] + Tokens(s[1..]) == line + Tokens(s);
    }
  }

  /** Cutting the keys after the opening "c" gives back the typed lines, key for key. */
  lemma {:induction false} KeysSplitIntoLines(lines: seq<string>)
    ensures CutAtEnter(LineKeys(lines), []) == AllTokens(lines)
  {
    if lines != [] {
      var rest := ["ret"] + LineKeys(lines[1..]);
      assert LineKeys(lines) == Tokens(lines[0]) + rest;
      TokensStayInLine(lines[0], rest, []);
      assert [] + Tokens(lines[0]) == Tokens(lines[0]);
      assert rest[1..] == LineKeys(lines[1..]);
      KeysSplitIntoLines(lines[1..]);
    }
  }
}
