/** What the installer makes of the kernel line that is typed: a reader of its own for the options on it. */
module KernelLine {
  import opened Text
  import opened Topology
  import opened BootCommand

  /** The network the installer sets up. */
  datatype Network = Dhcp | Static(ip: string, gateway: string, netmask: string, hostname: string) | Malformed

  /** The installation a kernel line asks for. */
  datatype Install = Install(volume: string, kickstart: string, network: Network, fips: bool, singleDisk: bool)

  /** The value of the first word that sets an option, "" if there is none. */
  function ValueOf(words: seq<string>, option: string): string {
    if words == [] then "" else if option <= words[0] then words[0][|option|..] else ValueOf(words[1..], option)
  }

  /** The fields of a static address: client, peer, gateway, netmask, hostname, interface, method. */
  function ReadNetwork(value: string): Network {
    var f := Split(value, ':');
    if value == "dhcp" then Dhcp
    else if |f| == 7 && f[1] == "" && f[5] == "" && f[6] == "none" then Static(f[0], f[2], f[3], f[4])
    else Malformed
  }

  function ReadLine(line: string): Install {
    var words := Split(line, ' ');
    Install(ValueOf(words, "inst.stage2=hd:LABEL="), ValueOf(words, "inst.ks="), ReadNetwork(ValueOf(words, "ip=")),
            "fips=1" in words, "inst.vsingledisk" in words)
  }

  // ---- the address ----

  lemma {:induction false} PieceCount(pieces: seq<string>, sep: char)
    requires pieces != []
    ensures |Split(Join(pieces, sep), sep)| >= |pieces|
    ensures |Split(Join(pieces, sep), sep)| == |pieces| ==> forall k | 0 <= k < |pieces| :: sep !in pieces[k]
    decreases |pieces|
  {
    OnePiece(pieces[0], sep);
    if |pieces| > 1 {
      SplitConcat(pieces[0], Join(pieces[1..], sep), sep);
      PieceCount(pieces[1..], sep);
      assert forall k | 0 < k < |pieces| :: pieces[k] == pieces[1..][k - 1];
    }
  }

  lemma {:induction false} OnePiece(s: string, sep: char)
    ensures |Split(s, sep)| == 1 ==> sep !in s
  {
    if s != [] {
      OnePiece(s[1..], sep);
    }
  }

  function AddressFields(ip: string, gateway: string, netmask: string, hostname: string): seq<string> {
    [ip, "", gateway, netmask, hostname, "", "none"]
  }

  lemma AddressIsJoined(ip: string, gateway: string, netmask: string, hostname: string)
    requires ip != ""
    ensures IpKernelArg(ip, gateway, netmask, hostname) == "ip=" + Join(AddressFields(ip, gateway, netmask, hostname), ':')
  {
    var f := AddressFields(ip, gateway, netmask, hostname);
    assert f[1..][1..] == f[2..] && f[2..][1..] == f[3..] && f[3..][1..] == f[4..] && f[4..][1..] == f[5..] && f[5..][1..] == f[6..];
    assert Join(f[6..], ':') == "none";
    assert Join(f[5..], ':') == "" + [':'] + "none";
    assert Join(f[4..], ':') == hostname + [':'] + Join(f[5..], ':');
    assert Join(f[3..], ':') == netmask + [':'] + Join(f[4..], ':');
    assert Join(f[2..], ':') == gateway + [':'] + Join(f[3..], ':');
    assert Join(f[1..], ':') == "" + [':'] + Join(f[2..], ':');
    AddressText(ip, gateway, netmask, hostname);
  }

  lemma AddressText(ip: string, gateway: string, netmask: string, hostname: string)
    ensures "ip=" + ip + "::" + gateway + ":" + netmask + ":" + hostname + "::none"
         == "ip=" + (ip + [':'] + ("" + [':'] + (gateway + [':'] + (netmask + [':'] + (hostname + [':'] + ("" + [':'] + "none"))))))
  {
  }

  /** A static address reads back as it was set exactly when none of the settings holds a colon. An IPv6 address
      does. */
  lemma AddressReadsBackExactly(ip: string, gateway: string, netmask: string, hostname: string)
    requires ip != ""
    ensures var arg := IpKernelArg(ip, gateway, netmask, hostname);
      && "ip=" <= arg
      && (ReadNetwork(arg[3..]) == Static(ip, gateway, netmask, hostname)
          <==> ':' !in ip && ':' !in gateway && ':' !in netmask && ':' !in hostname)
  {
    var f := AddressFields(ip, gateway, netmask, hostname);
    var value := Join(f, ':');
    AddressIsJoined(ip, gateway, netmask, hostname);
    assert ("ip=" + value)[3..] == value;
    NotDhcp(f);
    hide Split, Join, IpKernelArg;
    if ':' !in ip && ':' !in gateway && ':' !in netmask && ':' !in hostname {
      assert forall k | 0 <= k < 7 :: ':' !in f[k];
      SplitJoin(f, ':');
    } else {
      PieceCount(f, ':');
      assert f[0] == ip && f[2] == gateway && f[3] == netmask && f[4] == hostname;
    }
  }

  lemma NotDhcp(f: seq<string>)
    requires |f| == 7
    ensures Join(f, ':') != "dhcp"
  {
    PieceCount(f, ':');
    SplitLine("dhcp", "", ':');
  }

  // ---- the line ----

  /** The words of the kernel line. */
  function Words(role: string, ksUrl: string, ipArg: string, singleDisk: bool): seq<string> {
    if IsVSA(role) then
      ["linuxefi", "/images/pxeboot/vmlinuz", "inst.stage2=hd:LABEL=" + "VeeamSA", "fips=1", "inst.ks=" + ksUrl, ipArg, "quiet", "inst.assumeyes"]
    else if singleDisk then
      ["linuxefi", "/images/pxeboot/vmlinuz", "inst.stage2=hd:LABEL=" + "VeeamJeOS", "inst.ks=" + ksUrl, "inst.vsingledisk", ipArg, "quiet", "inst.assumeyes"]
    else
      ["linuxefi", "/images/pxeboot/vmlinuz", "inst.stage2=hd:LABEL=" + "VeeamJeOS", "inst.ks=" + ksUrl, ipArg, "quiet", "inst.assumeyes"]
  }

  lemma JoinFrom(w: seq<string>, i: nat)
    requires i + 1 < |w|
    ensures Join(w[i..], ' ') == w[i] + ([' '] + Join(w[i + 1..], ' '))
  {
    assert w[i..][1..] == w[i + 1..];
  }

  lemma JoinSeven(w: seq<string>)
    requires |w| == 7
    ensures Join(w, ' ')
         == w[0] + ([' '] + (w[1] + ([' '] + (w[2] + ([' '] + (w[3] + ([' '] + (w[4] + ([' '] + (w[5] + ([' '] + w[6])))))))))))
  {
    JoinFrom(w, 0);
    JoinFrom(w, 1);
    JoinFrom(w, 2);
    JoinFrom(w, 3);
    JoinFrom(w, 4);
    JoinFrom(w, 5);
    assert w[0..] == w && w[6..] == [w[6]];
  }

  lemma JoinEight(w: seq<string>)
    requires |w| == 8
    ensures Join(w, ' ')
         == w[0] + ([' '] + (w[1] + ([' '] + (w[2] + ([' '] + (w[3] + ([' '] + (w[4] + ([' '] + (w[5] + ([' '] + (w[6] + ([' '] + w[7])))))))))))))
  {
    JoinFrom(w, 0);
    JoinSeven(w[1..]);
    assert w[0..] == w;
  }

  lemma TailText()
    ensures TAIL == [' '] + ("quiet" + ([' '] + "inst.assumeyes"))
  {
  }

  /** The line is these words with a space between them. */
  lemma LineIsJoined(role: string, ksUrl: string, ipArg: string, singleDisk: bool)
    ensures LinuxLine(role, ksUrl, ipArg, singleDisk) == Join(Words(role, ksUrl, ipArg, singleDisk), ' ')
  {
    hide Join, Kernel;
    TailText();
    if IsVSA(role) {
      JoinEight(Words(role, ksUrl, ipArg, singleDisk));
      VsaText(ksUrl, ipArg);
    } else if singleDisk {
      JoinEight(Words(role, ksUrl, ipArg, singleDisk));
      ViaText(ksUrl, ipArg, true);
    } else {
      JoinSeven(Words(role, ksUrl, ipArg, singleDisk));
      ViaText(ksUrl, ipArg, false);
    }
  }

  function Front(volume: string): string {
    "linuxefi" + ([' '] + ("/images/pxeboot/vmlinuz" + ([' '] + ("inst.stage2=hd:LABEL=" + volume))))
  }

  lemma KernelText(volume: string)
    ensures Kernel(volume) == Front(volume)
  {
    assert "linuxefi " == "linuxefi" + [' '] && "/images/pxeboot/vmlinuz " == "/images/pxeboot/vmlinuz" + [' '];
  }

  lemma VsaText(ksUrl: string, ipArg: string)
    ensures Kernel("VeeamSA") + " fips=1 inst.ks=" + ksUrl + " " + ipArg + TAIL
         == "linuxefi" + ([' '] + ("/images/pxeboot/vmlinuz" + ([' '] + (("inst.stage2=hd:LABEL=" + "VeeamSA")
            + ([' '] + ("fips=1" + ([' '] + (("inst.ks=" + ksUrl) + ([' '] + (ipArg + TAIL))))))))))
  {
    KernelText("VeeamSA");
    assert " fips=1 inst.ks=" == [' '] + ("fips=1" + ([' '] + "inst.ks="));
  }

  lemma ViaText(ksUrl: string, ipArg: string, singleDisk: bool)
    ensures Kernel("VeeamJeOS") + " inst.ks=" + ksUrl + (if singleDisk then " inst.vsingledisk" else "") + " " + ipArg + TAIL
         == "linuxefi" + ([' '] + ("/images/pxeboot/vmlinuz" + ([' '] + (("inst.stage2=hd:LABEL=" + "VeeamJeOS")
            + ([' '] + (("inst.ks=" + ksUrl) + ((if singleDisk then [' '] + "inst.vsingledisk" else "") + ([' '] + (ipArg + TAIL)))))))))
  {
    KernelText("VeeamJeOS");
    assert " inst.ks=" == [' '] + "inst.ks=";
    assert " inst.vsingledisk" == [' '] + "inst.vsingledisk";
  }

  lemma NoSpaces(role: string, ksUrl: string, ipArg: string, singleDisk: bool)
    requires ' ' !in ksUrl && ' ' !in ipArg
    ensures forall k | 0 <= k < |Words(role, ksUrl, ipArg, singleDisk)| :: ' ' !in Words(role, ksUrl, ipArg, singleDisk)[k]
  {
    assert ' ' !in "linuxefi" && ' ' !in "/images/pxeboot/vmlinuz" && ' ' !in "inst.stage2=hd:LABEL=" && ' ' !in "VeeamSA" && ' ' !in "VeeamJeOS";
    assert ' ' !in "fips=1" && ' ' !in "inst.ks=" && ' ' !in "inst.vsingledisk" && ' ' !in "quiet" && ' ' !in "inst.assumeyes";
  }

  // ---- reading it back ----

  lemma {:induction false} ValueAt(words: seq<string>, option: string, i: nat)
    requires i < |words| && option <= words[i] && forall k | 0 <= k < i :: !(option <= words[k])
    ensures ValueOf(words, option) == words[i][|option|..]
  {
    if i > 0 {
      assert words[1..][i - 1] == words[i] && forall k | 0 <= k < i - 1 :: words[1..][k] == words[k + 1];
      ValueAt(words[1..], option, i - 1);
    }
  }

  /** A word that differs from an option at some character does not set it. */
  lemma Differs(word: string, option: string, k: nat)
    requires k < |word| && k < |option| && word[k] != option[k]
    ensures !(option <= word) && word != option
  {
  }

  lemma Options(volume: string, ksUrl: string, ipArg: string)
    requires "ip=" <= ipArg
    ensures var stage2, ks := "inst.stage2=hd:LABEL=" + volume, "inst.ks=" + ksUrl;
      && "inst.stage2=hd:LABEL=" <= stage2 && stage2[|"inst.stage2=hd:LABEL="|..] == volume
      && "inst.ks=" <= ks && ks[|"inst.ks="|..] == ksUrl
      && !("inst.ks=" <= stage2) && !("ip=" <= stage2) && !("ip=" <= ks)
      && stage2 != "fips=1" && ks != "fips=1" && ipArg != "fips=1"
      && stage2 != "inst.vsingledisk" && ks != "inst.vsingledisk" && ipArg != "inst.vsingledisk"
  {
    var stage2, ks := "inst.stage2=hd:LABEL=" + volume, "inst.ks=" + ksUrl;
    assert stage2[0] == 'i' && stage2[1] == 'n' && stage2[5] == 's';
    assert ks[0] == 'i' && ks[1] == 'n' && ks[5] == 'k';
    assert ipArg[0] == 'i' && ipArg[1] == 'p';
    assert "inst.vsingledisk"[5] == 'v' && "inst.vsingledisk"[1] == 'n' && "inst.ks="[5] == 'k';
    Differs(stage2, "inst.ks=", 5);
    Differs(stage2, "ip=", 1);
    Differs(ks, "ip=", 1);
  }

  lemma FixedWords()
    ensures !("inst.stage2=hd:LABEL=" <= "linuxefi") && !("inst.stage2=hd:LABEL=" <= "/images/pxeboot/vmlinuz")
    ensures !("inst.ks=" <= "linuxefi") && !("inst.ks=" <= "/images/pxeboot/vmlinuz") && !("inst.ks=" <= "fips=1")
    ensures !("ip=" <= "linuxefi") && !("ip=" <= "/images/pxeboot/vmlinuz") && !("ip=" <= "fips=1") && !("ip=" <= "inst.vsingledisk")
    ensures "linuxefi" != "fips=1" && "/images/pxeboot/vmlinuz" != "fips=1" && "inst.vsingledisk" != "fips=1" && "quiet" != "fips=1" && "inst.assumeyes" != "fips=1"
    ensures "linuxefi" != "inst.vsingledisk" && "/images/pxeboot/vmlinuz" != "inst.vsingledisk" && "fips=1" != "inst.vsingledisk"
    ensures "quiet" != "inst.vsingledisk" && "inst.assumeyes" != "inst.vsingledisk"
  {
    assert "linuxefi"[0] == 'l' && "/images/pxeboot/vmlinuz"[0] == '/' && "fips=1"[0] == 'f' && "quiet"[0] == 'q';
    assert "inst.stage2=hd:LABEL="[0] == 'i' && "inst.ks="[0] == 'i' && "ip="[0] == 'i' && "ip="[1] == 'p';
    assert "inst.vsingledisk"[0] == 'i' && "inst.vsingledisk"[1] == 'n' && "inst.vsingledisk"[5] == 'v';
    assert "inst.assumeyes"[0] == 'i' && "inst.assumeyes"[5] == 'a';
  }

  function VolumeOf(role: string): string { if IsVSA(role) then "VeeamSA" else "VeeamJeOS" }

  lemma WordsRead(role: string, ksUrl: string, ipArg: string, singleDisk: bool)
    requires "ip=" <= ipArg
    ensures var w := Words(role, ksUrl, ipArg, singleDisk);
      && ValueOf(w, "inst.stage2=hd:LABEL=") == VolumeOf(role) && ValueOf(w, "inst.ks=") == ksUrl && ValueOf(w, "ip=") == ipArg[3..]
      && ("fips=1" in w <==> IsVSA(role)) && ("inst.vsingledisk" in w <==> !IsVSA(role) && singleDisk)
  {
    var w := Words(role, ksUrl, ipArg, singleDisk);
    Options(VolumeOf(role), ksUrl, ipArg);
    FixedWords();
    hide ValueOf;
    ValueAt(w, "inst.stage2=hd:LABEL=", 2);
    ValueAt(w, "inst.ks=", if IsVSA(role) then 4 else 3);
    ValueAt(w, "ip=", if IsVSA(role) then 5 else if singleDisk then 5 else 4);
    FlagsRead(role, ksUrl, ipArg, singleDisk);
  }

  lemma FlagsRead(role: string, ksUrl: string, ipArg: string, singleDisk: bool)
    requires "ip=" <= ipArg
    ensures var w := Words(role, ksUrl, ipArg, singleDisk);
      ("fips=1" in w <==> IsVSA(role)) && ("inst.vsingledisk" in w <==> !IsVSA(role) && singleDisk)
  {
    var w := Words(role, ksUrl, ipArg, singleDisk);
    Options(VolumeOf(role), ksUrl, ipArg);
    FixedWords();
    if IsVSA(role) {
      assert w[3] == "fips=1";
    } else if singleDisk {
      assert w[4] == "inst.vsingledisk";
    }
  }

  lemma ArgumentIsSet(ip: string, gateway: string, netmask: string, hostname: string)
    requires ' ' !in ip && ' ' !in gateway && ' ' !in netmask && ' ' !in hostname
    ensures var arg := IpKernelArg(ip, gateway, netmask, hostname); "ip=" <= arg && ' ' !in arg
    ensures ip == "" ==> ReadNetwork(IpKernelArg(ip, gateway, netmask, hostname)[3..]) == Dhcp
  {
    if ip == "" {
      assert "ip=dhcp"[3..] == "dhcp";
    }
  }

  /** The kernel line tells the installer what was asked for: the volume of the role, the kickstart file, DHCP or
      the static network, FIPS mode for a VSA, and the single disk for any other node that is to have one. For
      space-free settings a static network is told right exactly when they hold no colon. */
  lemma KernelLineReadsBack(role: string, ksUrl: string, ip: string, gateway: string, netmask: string, hostname: string, singleDisk: bool)
    requires ' ' !in ksUrl && ' ' !in ip && ' ' !in gateway && ' ' !in netmask && ' ' !in hostname
    ensures var read := ReadLine(LinuxLine(role, ksUrl, IpKernelArg(ip, gateway, netmask, hostname), singleDisk));
      && read == Install(if IsVSA(role) then "VeeamSA" else "VeeamJeOS", ksUrl, read.network, IsVSA(role), !IsVSA(role) && singleDisk)
      && (if ip == "" then read.network == Dhcp
          else read.network == Static(ip, gateway, netmask, hostname)
               <==> ':' !in ip && ':' !in gateway && ':' !in netmask && ':' !in hostname)
  {
    var arg := IpKernelArg(ip, gateway, netmask, hostname);
    ArgumentIsSet(ip, gateway, netmask, hostname);
    if ip != "" {
      AddressReadsBackExactly(ip, gateway, netmask, hostname);
    }
    hide IpKernelArg, Split, Join, ReadNetwork, LinuxLine, Words, ValueOf;
    LineIsJoined(role, ksUrl, arg, singleDisk);
    NoSpaces(role, ksUrl, arg, singleDisk);
    SplitJoin(Words(role, ksUrl, arg, singleDisk), ' ');
    WordsRead(role, ksUrl, arg, singleDisk);
  }

  /** The three lines are the commands that load the kernel, load its initial file system and boot. */
  lemma LinesAreCommands(role: string, ksUrl: string, ipArg: string, singleDisk: bool)
    ensures var lines := BootLines(role, ksUrl, ipArg, singleDisk);
      && |lines| == 3
      && lines[0] == LinuxLine(role, ksUrl, ipArg, singleDisk) && "linuxefi " <= lines[0]
      && Split(lines[1], ' ') == ["initrdefi", "/images/pxeboot/initrd.img"]
      && lines[2] == "boot"
  {
    InitrdSplits();
    assert "linuxefi " <= Kernel(LABEL_VSA) && "linuxefi " <= Kernel(LABEL_VIA);
  }

  lemma TwoWords(text: string, a: string, b: string)
    requires text == a + [' '] + b && ' ' !in a && ' ' !in b
    ensures Split(text, ' ') == [a, b]
  {
    SplitLine(a, b, ' ');
    SplitLine(b, "", ' ');
  }

  lemma InitrdSplits()
    ensures Split(InitrdLine(), ' ') == ["initrdefi", "/images/pxeboot/initrd.img"]
  {
    hide Split;
    assert "initrdefi " == "initrdefi" + [' '];
    assert ' ' !in "initrdefi" && ' ' !in "/images/pxeboot/initrd.img";
    TwoWords(InitrdLine(), "initrdefi", "/images/pxeboot/initrd.img");
  }
}
