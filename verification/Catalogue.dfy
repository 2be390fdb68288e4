/** The topologies the program offers, and what their role labels mean to the wiring and the planner. */
module Catalogue {
  import opened Topology

  datatype Kind = Vsa | VsaProxy | VsaHR | VsaProxyHR | HaHR | HaProxyHR | OnlyProxy | OnlyHR

  function RolesOf(kind: Kind): seq<string> {
    match kind
    case Vsa => ["VSA"]
    case VsaProxy => ["VSA", "VIA-Proxy"]
    case VsaHR => ["VSA", "VIA-HR"]
    case VsaProxyHR => ["VSA", "VIA-Proxy", "VIA-HR"]
    case HaHR => ["VSA", "VSA", "VIA-HR"]
    case HaProxyHR => ["VSA", "VSA", "VIA-Proxy", "VIA-HR"]
    case OnlyProxy => ["VIA-Proxy"]
    case OnlyHR => ["VIA-HR"]
  }

  /** The labels' meaning: the wiring and the planner know a node by its label alone. */
  lemma LabelsMean()
    ensures IsVSA("VSA") && !IsVSA("VIA-Proxy") && !IsVSA("VIA-HR")
    ensures DutyOf("VIA-HR") == HardenedRepo && DutyOf("VIA-Proxy") == VmwareProxy
  {
    assert "VIA-HR"[1] == 'I' && "VIA-Proxy"[1] == 'I' && "VSA"[1] == 'S';
    assert ContainsAt("VIA-HR", "HR", 4);
    assert ContainsAt("VIA-Proxy", "Proxy", 4);
    forall i: nat | i <= |"VIA-Proxy"| ensures !ContainsAt("VIA-Proxy", "HR", i) {
      NoH(i);
    }
  }

  lemma NoH(i: nat)
    ensures !ContainsAt("VIA-Proxy", "HR", i)
  {
    var s := "VIA-Proxy";
    assert s[0] == 'V' && s[1] == 'I' && s[2] == 'A' && s[3] == '-' && s[4] == 'P' && s[5] == 'r' && s[6] == 'o' && s[7] == 'x' && s[8] == 'y';
    if i + 2 <= 9 {
      assert s[i..i + 2][0] == s[i] && "HR"[0] == 'H';
    }
  }

  /** Whatever the kind, every node of an offered topology is a VSA, a hardened repository or a proxy, and a pair
      of VSAs comes with a hardened repository. So what the plan and the wiring treat differently, nodes without a
      duty and a cluster without a hardened repository, does not arise from the catalogue. */
  lemma OfferedNodesHaveDuties(kind: Kind)
    ensures forall k | 0 <= k < |RolesOf(kind)| :: RolesOf(kind)[k] in ["VSA", "VIA-Proxy", "VIA-HR"]
    ensures forall k | 0 <= k < |RolesOf(kind)| :: IsVSA(RolesOf(kind)[k]) || !DutyOf(RolesOf(kind)[k]).HostOnly?
    ensures (exists j, k :: 0 <= j < k < |RolesOf(kind)| && IsVSA(RolesOf(kind)[j]) && IsVSA(RolesOf(kind)[k])) ==>
              exists k :: 0 <= k < |RolesOf(kind)| && !IsVSA(RolesOf(kind)[k]) && DutyOf(RolesOf(kind)[k]).HardenedRepo?
    ensures (forall k | 0 <= k < |RolesOf(kind)| :: !IsVSA(RolesOf(kind)[k])) <==> kind.OnlyProxy? || kind.OnlyHR?
  {
    LabelsMean();
    var roles := RolesOf(kind);
    match kind
    case HaHR => assert IsVSA(roles[0]) && roles[2] == "VIA-HR";
    case HaProxyHR => assert IsVSA(roles[0]) && roles[3] == "VIA-HR";
    case OnlyProxy =>
    case OnlyHR =>
    case _ => assert IsVSA(roles[0]);
  }
}
