/** Nodes of a deployment and the role tests shared by the live wiring and the planner. */
module Topology {

  /** One appliance: the hostname, the role label and the address wiring uses to reach it. */
  datatype Node = Node(name: string, role: string, ip: string)

  predicate HasPrefix(s: string, prefix: string) {
    prefix <= s
  }

  predicate ContainsAt(s: string, sub: string, i: nat) {
    i + |sub| <= |s| && s[i..i + |sub|] == sub
  }

  predicate Contains(s: string, sub: string) {
    exists i: nat | i <= |s| :: ContainsAt(s, sub, i)
  }

  predicate IsVSA(role: string) { HasPrefix(role, "VSA") }

  predicate IsHR(role: string) { Contains(role, "HR") }

  predicate IsProxy(role: string) { Contains(role, "Proxy") }

  /** What the wiring creates on a node's host: the role switch tests HR before Proxy. */
  datatype Duty = HardenedRepo | VmwareProxy | HostOnly

  function DutyOf(role: string): Duty {
    if IsHR(role) then HardenedRepo else if IsProxy(role) then VmwareProxy else HostOnly
  }

  /** Scans for a substring the way the planner's role tests do: window by window. */
  method Scan(role: string, sub: string) returns (found: bool)
    ensures found == Contains(role, sub)
  {
    var i := 0;
    while i + |sub| <= |role|
      invariant i <= |role| + 1
      invariant forall k: nat | k < i :: !ContainsAt(role, sub, k)
    {
      if role[i..i + |sub|] == sub {
        assert ContainsAt(role, sub, i);
        return true;
      }
      i := i + 1;
    }
    return false;
  }

  /** The VSA nodes in order, and everything else in order. */
  function Vsas(nodes: seq<Node>): seq<Node> {
    if nodes == [] then []
    else (if IsVSA(nodes[0].role) then [nodes[0]] else []) + Vsas(nodes[1..])
  }

  function Vias(nodes: seq<Node>): seq<Node> {
    if nodes == [] then []
    else (if IsVSA(nodes[0].role) then [] else [nodes[0]]) + Vias(nodes[1..])
  }

  /** The lowest index of a hardened-repository node, if there is one. */
  ghost predicate IsFirstHR(vias: seq<Node>, i: nat) {
    && i < |vias| && DutyOf(vias[i].role).HardenedRepo?
    && forall k | 0 <= k < i :: !DutyOf(vias[k].role).HardenedRepo?
  }

  predicate HasHR(vias: seq<Node>) {
    exists i | 0 <= i < |vias| :: DutyOf(vias[i].role).HardenedRepo?
  }
}
