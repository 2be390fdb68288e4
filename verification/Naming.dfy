/** Names of the hardened repositories: "HR-" and the hostname, with the address appended when
    several hardened-repository nodes share a hostname. */
module Naming {
  import opened Topology

  const DEFAULT_REPOSITORY := "Default Backup Repository"

  /** How many hardened-repository nodes carry this name. */
  function NameCount(vias: seq<Node>, name: string): nat {
    if vias == [] then 0
    else (if DutyOf(vias[0].role).HardenedRepo? && vias[0].name == name then 1 else 0) + NameCount(vias[1..], name)
  }

  function RepoName(vias: seq<Node>, i: nat): string
    requires i < |vias|
  {
    var base := "HR-" + vias[i].name;
    if NameCount(vias, vias[i].name) > 1 then base + "-" + vias[i].ip else base
  }

  /** The count map as the wiring builds it: one pass over the nodes. */
  method CountNames(vias: seq<Node>) returns (count: map<string, nat>)
    ensures forall n :: n in count <==> NameCount(vias, n) > 0
    ensures forall n | n in count :: count[n] == NameCount(vias, n)
  {
    count := map[];
    for k := 0 to |vias|
      invariant forall n :: n in count <==> NameCount(vias[..k], n) > 0
      invariant forall n | n in count :: count[n] == NameCount(vias[..k], n)
    {
      forall n { NameCountSnoc(vias[..k], vias[k], n); }
      assert vias[..k + 1] == vias[..k] + [vias[k]];
      if DutyOf(vias[k].role).HardenedRepo? {
        var n := vias[k].name;
        count := count[n := (if n in count then count[n] else 0) + 1];
      }
    }
    assert vias[..|vias|] == vias;
  }

  lemma {:induction false} NameCountSnoc(vias: seq<Node>, v: Node, name: string)
    ensures NameCount(vias + [v], name)
         == NameCount(vias, name) + (if DutyOf(v.role).HardenedRepo? && v.name == name then 1 else 0)
  {
    if vias == [] {
      assert vias + [v] == [v];
    } else {
      assert (vias + [v])[1..] == vias[1..] + [v];
      NameCountSnoc(vias[1..], v, name);
    }
  }

  /** Two hardened-repository nodes with one name make its count at least two. */
  lemma {:induction false} SharedNameIsCounted(vias: seq<Node>, i: nat, j: nat)
    requires i < j < |vias| && vias[i].name == vias[j].name
    requires DutyOf(vias[i].role).HardenedRepo? && DutyOf(vias[j].role).HardenedRepo?
    ensures NameCount(vias, vias[i].name) >= 2
  {
    if i == 0 {
      OneNameIsCounted(vias[1..], j - 1);
    } else {
      SharedNameIsCounted(vias[1..], i - 1, j - 1);
    }
  }

  lemma {:induction false} OneNameIsCounted(vias: seq<Node>, j: nat)
    requires j < |vias| && DutyOf(vias[j].role).HardenedRepo?
    ensures NameCount(vias, vias[j].name) >= 1
  {
    if j > 0 {
      OneNameIsCounted(vias[1..], j - 1);
    }
  }

  /** A dash cannot occur in a dotted IPv4 address, a dot cannot occur in a hostname. */
  predicate HyphenFree(s: string) { '-' !in s }

  predicate DotFree(s: string) { '.' !in s }

  /** A suffix after the last dash is determined by the whole string. */
  lemma LastDashIsUnique(a: string, x: string, b: string, y: string)
    requires HyphenFree(x) && HyphenFree(y)
    ensures a + "-" + x == b + "-" + y ==> a == b && x == y
  {
    var s, t := a + "-" + x, b + "-" + y;
    assert s[|a|] == '-' && t[|b|] == '-';
    assert forall k | |a| < k < |s| :: s[k] == x[k - |a| - 1];
    assert forall k | |b| < k < |t| :: t[k] == y[k - |b| - 1];
    assert a == s[..|a|] && b == t[..|b|];
    assert x == s[|a| + 1..] && y == t[|b| + 1..];
  }

  lemma PrefixCancels(p: string, a: string, b: string)
    ensures p + a == p + b <==> a == b
  {
    assert a == (p + a)[|p|..] && b == (p + b)[|p|..];
  }

  /** Hostnames the configuration form admits, next to addresses: dot-free names and distinct, dotted,
      hyphen-free addresses. A node without a hostname is named by its own address. */
  ghost predicate Nameable(vias: seq<Node>) {
    && (forall i | 0 <= i < |vias| && DutyOf(vias[i].role).HardenedRepo? ::
          && HyphenFree(vias[i].ip) && '.' in vias[i].ip
          && (DotFree(vias[i].name) || vias[i].name == vias[i].ip))
    && (forall i, j | 0 <= i < j < |vias| && DutyOf(vias[i].role).HardenedRepo? && DutyOf(vias[j].role).HardenedRepo? ::
          vias[i].ip != vias[j].ip)
  }

  /** The naming rule gives every hardened repository its own name, none of them the default's. */
  lemma RepoNamesAreInjective(vias: seq<Node>, i: nat, j: nat)
    requires i < j < |vias| && Nameable(vias)
    requires DutyOf(vias[i].role).HardenedRepo? && DutyOf(vias[j].role).HardenedRepo?
    ensures RepoName(vias, i) != RepoName(vias, j)
  {
    var ni, nj := vias[i].name, vias[j].name;
    PrefixCancels("HR-", ni, nj);
    LastDashIsUnique("HR-" + ni, vias[i].ip, "HR-" + nj, vias[j].ip);
    SuffixedIsNotSingle(ni, vias[i].ip, nj);
    SuffixedIsNotSingle(nj, vias[j].ip, ni);
    if ni == nj {
      SharedNameIsCounted(vias, i, j);
    }
  }

  /** A bare name equal to a suffixed one holds both the dash and the address's dot. */
  lemma SuffixedIsNotSingle(n: string, ip: string, single: string)
    requires '.' in ip
    ensures "HR-" + n + "-" + ip == "HR-" + single ==> '-' in single && '.' in single
  {
    var s := "HR-" + n + "-" + ip;
    var k :| 0 <= k < |ip| && ip[k] == '.';
    assert s[3 + |n|] == '-' && s[3 + |n| + 1 + k] == '.';
    assert forall m | 3 <= m < 3 + |single| :: ("HR-" + single)[m] == single[m - 3];
  }

  lemma RepoNameIsNotDefault(vias: seq<Node>, i: nat)
    requires i < |vias|
    ensures RepoName(vias, i) != DEFAULT_REPOSITORY
  {
    assert RepoName(vias, i)[0] == 'H';
  }

  // ---- exactly when two names collide ----

  /** Node j's plain name spells node i's disambiguated one. */
  predicate Spells(vias: seq<Node>, i: nat, j: nat)
    requires i < |vias| && j < |vias|
  {
    && NameCount(vias, vias[i].name) > 1 && NameCount(vias, vias[j].name) <= 1
    && vias[j].name == vias[i].name + "-" + vias[i].ip
  }

  lemma SpelledCollides(vias: seq<Node>, i: nat, j: nat)
    requires i < |vias| && j < |vias| && Spells(vias, i, j)
    ensures RepoName(vias, i) == RepoName(vias, j)
  {
    assert "HR-" + vias[i].name + "-" + vias[i].ip == "HR-" + (vias[i].name + "-" + vias[i].ip);
  }

  /** Whatever the hostnames, two hardened repositories with distinct hyphen-free addresses get one name
      exactly when one hostname is shared, the other is not, and the other spells the shared one with its
      node's address. */
  lemma NamesCollideExactly(vias: seq<Node>, i: nat, j: nat)
    requires i < j < |vias| && DutyOf(vias[i].role).HardenedRepo? && DutyOf(vias[j].role).HardenedRepo?
    requires vias[i].ip != vias[j].ip && HyphenFree(vias[i].ip) && HyphenFree(vias[j].ip)
    ensures RepoName(vias, i) == RepoName(vias, j) <==> Spells(vias, i, j) || Spells(vias, j, i)
  {
    var ni, nj := vias[i].name, vias[j].name;
    PrefixCancels("HR-", ni, nj);
    LastDashIsUnique("HR-" + ni, vias[i].ip, "HR-" + nj, vias[j].ip);
    SuffixedIsSingle(ni, vias[i].ip, nj);
    SuffixedIsSingle(nj, vias[j].ip, ni);
    if ni == nj {
      SharedNameIsCounted(vias, i, j);
    }
  }

  lemma SuffixedIsSingle(n: string, ip: string, single: string)
    ensures "HR-" + n + "-" + ip == "HR-" + single <==> n + "-" + ip == single
  {
    assert "HR-" + n + "-" + ip == "HR-" + (n + "-" + ip);
    PrefixCancels("HR-", n + "-" + ip, single);
  }

  /** So without dot-free hostnames the rule is not injective: two nodes share a hostname, a third one's
      spells it with the first address. */
  lemma DottedHostnameCollides(vias: seq<Node>, dup: string, ip: string)
    requires |vias| == 3 && forall k | 0 <= k < 3 :: DutyOf(vias[k].role).HardenedRepo?
    requires vias[0].name == vias[1].name == dup && vias[0].ip == ip
    requires vias[2].name == dup + "-" + ip
    ensures RepoName(vias, 0) == RepoName(vias, 2)
  {
    SharedNameIsCounted(vias, 0, 1);
    assert |vias[2].name| > |dup|;
    assert vias[2..][1..] == vias[3..] && vias[1..][1..] == vias[2..];
    assert NameCount(vias[2..], vias[2].name) == 1;
    assert NameCount(vias[1..], vias[2].name) == 1;
    SpelledCollides(vias, 0, 2);
  }
}
