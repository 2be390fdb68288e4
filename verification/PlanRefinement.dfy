/** The plan's node steps against the live wiring: the same hosts and proxies, and the same repositories
    exactly when. */
module PlanRefinement {
  import opened Topology
  import opened Vbr
  import opened Naming
  import opened FanOut
  import opened FanOutInvariant
  import opened FanOutTheorems
  import opened Bodies
  import opened Planner
  import opened PlanExecution
  import Wire

  // ---- names ----

  lemma {:induction false} CountIgnoresOthers(a: seq<Node>, b: seq<Node>, name: string)
    requires |a| == |b|
    requires forall i | 0 <= i < |a| :: a[i].role == b[i].role && (DutyOf(a[i].role).HardenedRepo? ==> a[i].name == b[i].name)
    ensures NameCount(a, name) == NameCount(b, name)
  {
    if a != [] {
      CountIgnoresOthers(a[1..], b[1..], name);
    }
  }

  ghost predicate SameNames(vias: seq<Node>) {
    forall i | 0 <= i < |vias| && DutyOf(vias[i].role).HardenedRepo? :: RepoName(vias, i) == RepoName(NamedAll(vias), i)
  }

  /** The planner and the wiring name the repositories alike exactly when every hardened-repository node has
      a hostname: without one the planner falls back to the address, the wiring to nothing. */
  lemma NamesAgreeExactly(vias: seq<Node>)
    requires forall i | 0 <= i < |vias| :: vias[i].ip != ""
    ensures SameNames(vias) <==> forall i | 0 <= i < |vias| && DutyOf(vias[i].role).HardenedRepo? :: vias[i].name != ""
  {
    var named := NamedAll(vias);
    if forall i | 0 <= i < |vias| && DutyOf(vias[i].role).HardenedRepo? :: vias[i].name != "" {
      forall i | 0 <= i < |vias| && DutyOf(vias[i].role).HardenedRepo? ensures RepoName(vias, i) == RepoName(named, i) {
        CountIgnoresOthers(vias, named, vias[i].name);
      }
    }
    forall i | 0 <= i < |vias| && DutyOf(vias[i].role).HardenedRepo? && vias[i].name == "" ensures RepoName(vias, i) != RepoName(named, i) {
      NamelessDiffers(vias[i].ip);
    }
  }

  lemma NamelessDiffers(ip: string)
    requires ip != ""
    ensures "HR-" + ip != "HR-" + "" && "HR-" + ip != "HR-" + "" + "-" + ip
    ensures "HR-" + ip + "-" + ip != "HR-" + "" && "HR-" + ip + "-" + ip != "HR-" + "" + "-" + ip
  {
    assert |"HR-" + "" + "-" + ip| == 4 + |ip| && |"HR-" + ip| == 3 + |ip| && |"HR-" + ip + "-" + ip| == 4 + 2 * |ip|;
  }

  /** With dot-free hostnames and distinct dotted addresses the planner's names are distinct too, fallback
      included, and none is the default repository's. */
  lemma PlannerNamesAreInjective(vias: seq<Node>, i: nat, j: nat)
    requires Nameable(vias) && i < j < |vias|
    requires DutyOf(vias[i].role).HardenedRepo? && DutyOf(vias[j].role).HardenedRepo?
    ensures RepoName(NamedAll(vias), i) != RepoName(NamedAll(vias), j)
    ensures RepoName(NamedAll(vias), i) != DEFAULT_REPOSITORY && RepoName(NamedAll(vias), j) != DEFAULT_REPOSITORY
  {
    assert Nameable(NamedAll(vias));
    RepoNamesAreInjective(NamedAll(vias), i, j);
    RepoNameIsNotDefault(NamedAll(vias), i);
    RepoNameIsNotDefault(NamedAll(vias), j);
  }

  // ---- from the start to the last node ----

  /** A server with nothing registered that the plan would stumble over. */
  ghost predicate ReadyForPlan(s: Spec, srv0: Server, ids: nat -> Id) {
    && GoodStart(ConfigOf(s, NONE), srv0)
    && NoProxiesYet(ConfigOf(s, NONE), srv0, 0)
    && Supplies(ids, Begin(srv0))
  }

  /** The mount server the plan pins: the primary VSA's host, looked up by its address. */
  ghost function PlanMount(s: Spec, srv0: Server): Id {
    var vsas := Vsas(s.nodes);
    if Mount(vsas, Vias(s.nodes)).None? then NONE else HostIdOf(srv0, vsas[0].ip)
  }

  function WiringPart(s: Spec): seq<Planner.Step> {
    var vsas, vias := Vsas(s.nodes), Vias(s.nodes);
    LicensePart(s) + MountPart(vsas, vias) + ViaPart(s, vias, |vias|, Mount(vsas, vias))
  }

  lemma LicenseExecuted(m: Machine, s: Spec, ids: nat -> Id)
    ensures Exec(m, LicensePart(s), ids) == m
  {
    if s.license != "" {
      var l := LicensePart(s);
      assert l == [l[0]] + [l[1]];
      ExecConcat(m, [l[0]], [l[1]], ids);
      ExecOne(m, l[0], ids);
      ExecOne(m, l[1], ids);
    }
  }

  lemma MountExecuted(m: Machine, s: Spec, ids: nat -> Id)
    requires m.ok && m.env == map[]
    ensures var vsas, vias := Vsas(s.nodes), Vias(s.nodes);
      var t := Exec(m, MountPart(vsas, vias), ids);
      t == m.(env := t.env) && LookupOption(t.env, Mount(vsas, vias)) == PlanMount(s, m.srv)
  {
    var vsas, vias := Vsas(s.nodes), Vias(s.nodes);
    if Mount(vsas, vias).Some? {
      ExecOne(m, FindServer(vsas[0].ip, HrMount), ids);
    }
  }

  lemma StartIsReady(s: Spec, srv0: Server, ids: nat -> Id, m: Machine)
    requires ReadyForPlan(s, srv0, ids) && m.srv == srv0 && m.next == 0 && m.ok
    requires LookupOption(m.env, Mount(Vsas(s.nodes), Vias(s.nodes))) == PlanMount(s, srv0)
    ensures var cfg := ConfigOf(s, PlanMount(s, srv0));
      GoodStart(cfg, srv0) && Progress(cfg, srv0, ids, Mount(Vsas(s.nodes), Vias(s.nodes)), 0, m)
  {
    var c0, cfg := ConfigOf(s, NONE), ConfigOf(s, PlanMount(s, srv0));
    assert cfg == c0.(mount := cfg.mount);
    Wire.AnyMount(c0, cfg.mount, srv0);
    assert forall w, h | 0 <= w < |cfg.vias| :: HostOf(cfg, srv0, w, h) == HostOf(c0, srv0, w, h);
  }

  /** The machine after the first n nodes. */
  ghost function AfterNodes(m: Machine, s: Spec, n: nat, mount: Option<Var>, ids: nat -> Id): Machine
    requires n <= |Vias(s.nodes)|
  {
    if n == 0 then m else Exec(AfterNodes(m, s, n - 1, mount, ids), ViaStep(s, Vias(s.nodes), n - 1, mount), ids)
  }

  lemma NodePartRuns(m: Machine, s: Spec, mount: Option<Var>, ids: nat -> Id)
    ensures Exec(m, ViaPart(s, Vias(s.nodes), |Vias(s.nodes)|, mount), ids) == AfterNodes(m, s, |Vias(s.nodes)|, mount, ids)
  {
    var vias := Vias(s.nodes);
    var t, steps := m, [];
    for n := 0 to |vias|
      invariant steps == ViaPart(s, vias, n, mount)
      invariant t == AfterNodes(m, s, n, mount, ids) == Exec(m, steps, ids)
    {
      var step := ViaStep(s, vias, n, mount);
      ExecConcat(m, steps, step, ids);
      t, steps := Exec(t, step, ids), steps + step;
    }
  }

  lemma {:induction false} NodesExecuted(s: Spec, cfg: Config, srv0: Server, ids: nat -> Id, m: Machine, mount: Option<Var>, n: nat)
    returns (t: Machine)
    requires cfg == ConfigOf(s, cfg.mount) && (mount.None? || mount.value == HrMount)
    requires GoodStart(cfg, srv0) && Progress(cfg, srv0, ids, mount, 0, m) && n <= |cfg.vias|
    ensures t == AfterNodes(m, s, n, mount, ids)
    ensures Progress(cfg, srv0, ids, mount, n, t)
  {
    if n == 0 {
      t := m;
    } else {
      var before := NodesExecuted(s, cfg, srv0, ids, m, mount, n - 1);
      NodeExecuted(s, cfg, srv0, ids, mount, before, n - 1);
      t := Exec(before, ViaStep(s, Vias(s.nodes), n - 1, mount), ids);
    }
  }

  /** The machine after the license, mount and node steps. */
  ghost function Wired(s: Spec, srv0: Server, ids: nat -> Id): Machine {
    Exec(Begin(srv0), WiringPart(s), ids)
  }

  lemma WiringExecuted(s: Spec, srv0: Server, ids: nat -> Id)
    requires ReadyForPlan(s, srv0, ids)
    ensures var cfg := ConfigOf(s, PlanMount(s, srv0));
      && GoodStart(cfg, srv0)
      && Progress(cfg, srv0, ids, Mount(Vsas(s.nodes), Vias(s.nodes)), |cfg.vias|, Wired(s, srv0, ids))
  {
    var vsas, vias := Vsas(s.nodes), Vias(s.nodes);
    var m0 := Begin(srv0);
    var license, mount, nodes := LicensePart(s), MountPart(vsas, vias), ViaPart(s, vias, |vias|, Mount(vsas, vias));
    ExecConcat(m0, license + mount, nodes, ids);
    ExecConcat(m0, license, mount, ids);
    LicenseExecuted(m0, s, ids);
    MountExecuted(m0, s, ids);
    var m1 := Exec(m0, mount, ids);
    StartIsReady(s, srv0, ids, m1);
    NodePartRuns(m1, s, Mount(vsas, vias), ids);
    var t := NodesExecuted(s, ConfigOf(s, PlanMount(s, srv0)), srv0, ids, m1, Mount(vsas, vias), |vias|);
  }

  /** Every VIA node is a hardened repository or a proxy. */
  predicate AllHaveDuties(cfg: Config) {
    forall w | 0 <= w < |cfg.vias| :: !DutyAt(cfg, w).HostOnly?
  }

  /** The plan leaves every node wired exactly when each node without a duty was registered already: it emits
      no step for them, while the wiring registers their hosts. */
  lemma PlanWiresExactly(s: Spec, srv0: Server, ids: nat -> Id)
    requires ReadyForPlan(s, srv0, ids)
    ensures var cfg, m := ConfigOf(s, PlanMount(s, srv0)), Wired(s, srv0, ids);
      (forall w | 0 <= w < |cfg.vias| :: NodeWired(cfg, m.srv, w))
      <==> (forall w | 0 <= w < |cfg.vias| && DutyAt(cfg, w).HostOnly? :: HostNamed(srv0, cfg.vias[w].ip))
  {
    WiringExecuted(s, srv0, ids);
    var cfg, m := ConfigOf(s, PlanMount(s, srv0)), Wired(s, srv0, ids);
    forall w | 0 <= w < |cfg.vias| && DutyAt(cfg, w).HostOnly? ensures NodeWired(cfg, m.srv, w) == HostNamed(srv0, cfg.vias[w].ip) {
      if HostNamed(srv0, cfg.vias[w].ip) {
        var h :| h in srv0.hosts && srv0.hosts[h] == cfg.vias[w].ip;
        assert HostOf(cfg, m.srv, w, h) && Equipped(cfg, m.srv, w, h);
      } else {
        assert forall h | h in m.srv.hosts :: m.srv.hosts[h] != cfg.vias[w].ip;
      }
    }
  }

  /** With duties for all, the plan leaves exactly the content the topology calls for, each entry once. */
  lemma PlanConverges(s: Spec, srv0: Server, ids: nat -> Id)
    requires ReadyForPlan(s, srv0, ids) && AllHaveDuties(ConfigOf(s, NONE))
    ensures var cfg, m := ConfigOf(s, PlanMount(s, srv0)), Wired(s, srv0, ids);
      m.ok && ViewIsExpected(cfg, srv0, m.srv) && ExactlyOneEach(cfg, m.srv) && Extends(srv0, m.srv)
  {
    WiringExecuted(s, srv0, ids);
    var cfg, m := ConfigOf(s, PlanMount(s, srv0)), Wired(s, srv0, ids);
    assert forall w | 0 <= w < |cfg.vias| :: DutyAt(cfg, w) == DutyAt(ConfigOf(s, NONE), w);
    assert GoodNames(cfg);
    HostsAreExpected(cfg, srv0, m.srv);
    ReposAreExpected(cfg, srv0, m.srv);
    ProxiesAreExpected(cfg, srv0, m.srv);
  }

  // ---- against the live wiring ----

  /** The configuration the live wiring runs under. */
  function WiringConfig(s: Spec, mount: Id): Config {
    Config(Vias(s.nodes), RepoPath(s), RepoDays(s), mount)
  }

  /** Two configurations that differ at most in how the nodes are spelled and in the mount server. */
  ghost predicate Alike(a: Config, b: Config) {
    && |a.vias| == |b.vias| && a.path == b.path && a.days == b.days
    && (forall w | 0 <= w < |b.vias| :: a.vias[w].ip == b.vias[w].ip && DutyAt(a, w) == DutyAt(b, w))
    && (forall w | 0 <= w < |b.vias| && DutyAt(b, w).HardenedRepo? :: RepoName(a.vias, w) == RepoName(b.vias, w))
  }

  lemma ConfigsAreAlike(s: Spec, mount: Id, live: Id)
    requires SameNames(Vias(s.nodes))
    ensures Alike(ConfigOf(s, mount), WiringConfig(s, live))
  {
    var a, b := ConfigOf(s, mount), WiringConfig(s, live);
    assert forall w | 0 <= w < |b.vias| :: a.vias[w].ip == b.vias[w].ip && DutyAt(a, w) == DutyAt(b, w);
    assert forall w | 0 <= w < |b.vias| && DutyAt(b, w).HardenedRepo? :: RepoName(a.vias, w) == RepoName(b.vias, w);
  }

  /** So a server ready for one is ready for the other. */
  lemma AlikeStart(a: Config, b: Config, srv: Server)
    requires Alike(a, b) && GoodStart(a, srv)
    ensures GoodStart(b, srv)
  {
    assert forall w, h | 0 <= w < |b.vias| :: HostOf(a, srv, w, h) == HostOf(b, srv, w, h);
    assert forall w, r | 0 <= w < |b.vias| && DutyAt(b, w).HardenedRepo? :: NamedRepo(a, srv, w, r) == NamedRepo(b, srv, w, r);
  }

  lemma HostSetsAgree(a: Config, b: Config, srv0: Server)
    requires Alike(a, b)
    ensures ExpectedHosts(a, srv0) == ExpectedHosts(b, srv0)
  {
  }

  lemma ProxySetsAgree(a: Config, b: Config, srv0: Server)
    requires Alike(a, b) && WellFormed(srv0)
    ensures ExpectedProxies(a, srv0) == ExpectedProxies(b, srv0)
  {
  }

  lemma RepoSetsAgree(a: Config, b: Config, srv0: Server)
    requires Alike(a, b) && WellFormed(srv0) && (a.mount == b.mount || NoNewRepo(b, srv0))
    ensures ExpectedRepos(a, srv0) == ExpectedRepos(b, srv0)
  {
  }

  /** Every hardened repository is there already. */
  ghost predicate NoNewRepo(cfg: Config, srv0: Server) {
    forall w | 0 <= w < |cfg.vias| && DutyAt(cfg, w).HardenedRepo? :: RepoNamed(srv0, RepoName(cfg.vias, w))
  }

  /** A new repository shows its mount server. */
  lemma MountShows(a: Config, b: Config, srv0: Server, w: nat) returns (v: RepoView)
    requires Alike(a, b) && WellFormed(srv0) && a.mount != b.mount
    requires w < |b.vias| && DutyAt(b, w).HardenedRepo? && !RepoNamed(srv0, RepoName(b.vias, w))
    ensures v in ExpectedRepos(a, srv0) && v !in ExpectedRepos(b, srv0) && v.name != DEFAULT_REPOSITORY
  {
    v := RepoView(RepoName(a.vias, w), a.vias[w].ip, a.path, a.days, a.mount);
    RepoNameIsNotDefault(a.vias, w);
    forall u | u in ReposView(srv0) ensures u.name != v.name {
      var r :| r in srv0.repos && ViewRepo(srv0, srv0.repos[r]) == u;
    }
  }

  lemma MountDecides(a: Config, b: Config, srv0: Server)
    requires Alike(a, b) && WellFormed(srv0)
    ensures ExpectedRepos(a, srv0) == ExpectedRepos(b, srv0) <==> a.mount == b.mount || NoNewRepo(b, srv0)
  {
    if a.mount == b.mount || NoNewRepo(b, srv0) {
      RepoSetsAgree(a, b, srv0);
    } else {
      var w :| 0 <= w < |b.vias| && DutyAt(b, w).HardenedRepo? && !RepoNamed(srv0, RepoName(b.vias, w));
      var v := MountShows(a, b, srv0, w);
    }
  }

  /** Refinement: from one server, the plan and any successful interleaving of the wiring, interrupted and
      re-run as it may have been, leave the same hosts and the same proxies; and they leave the same
      repositories (name, host, path, days, mount) exactly when both pin the same mount server or no
      repository is new. */
  lemma PlanRefinesWiring(s: Spec, srv0: Server, ids: nat -> Id, live: Id, schedule: seq<FanOut.Step>)
    requires ReadyForPlan(s, srv0, ids) && AllHaveDuties(ConfigOf(s, NONE)) && SameNames(Vias(s.nodes))
    requires Success(Run(WiringConfig(s, live), Launch(WiringConfig(s, live), srv0), schedule))
    ensures var cfg := WiringConfig(s, live); var plan, wired := Wired(s, srv0, ids).srv, Run(cfg, Launch(cfg, srv0), schedule).srv;
      && WellFormed(plan) && WellFormed(wired)
      && HostsView(plan) == HostsView(wired) && ProxiesView(plan) == ProxiesView(wired)
      && (ReposView(plan) == ReposView(wired) <==> live == PlanMount(s, srv0) || NoNewRepo(cfg, srv0))
  {
    var a, b := ConfigOf(s, PlanMount(s, srv0)), WiringConfig(s, live);
    ConfigsAreAlike(s, NONE, live);
    AlikeStart(ConfigOf(s, NONE), b, srv0);
    PlanConverges(s, srv0, ids);
    ResumableConvergence(b, srv0, schedule);
    ConfigsAreAlike(s, PlanMount(s, srv0), live);
    HostSetsAgree(a, b, srv0);
    ProxySetsAgree(a, b, srv0);
    MountDecides(a, b, srv0);
  }

  // ---- the mount server ----

  /** The mount server the wiring pins when its lookups are answered: the primary VSA's host by address, or
      else by name. */
  ghost function LiveMount(srv: Server, primary: Node): Id {
    if primary.ip != "" && HostNamed(srv, primary.ip) then HostIdOf(srv, primary.ip)
    else if primary.name != "" then HostIdOf(srv, primary.name)
    else NONE
  }

  lemma LiveMountResolves(srv: Server, primary: Node)
    requires NONE !in srv.hosts
    ensures Wire.ResolvesTo(srv, [primary.ip, primary.name], LiveMount(srv, primary))
  {
    var candidates := [primary.ip, primary.name];
    assert candidates[0] == primary.ip && candidates[1] == primary.name;
  }

  /** Where no two hosts share a name, whatever the wiring's search resolves to is that mount server. */
  lemma ResolvedIsLive(srv: Server, primary: Node, id: Id)
    requires forall h, g | h in srv.hosts && g in srv.hosts && srv.hosts[h] == srv.hosts[g] :: h == g
    requires Wire.ResolvesTo(srv, [primary.ip, primary.name], id)
    ensures id == LiveMount(srv, primary)
  {
    var candidates := [primary.ip, primary.name];
    assert candidates[0] == primary.ip && candidates[1] == primary.name;
    LookupFindsHost(srv, primary.ip);
    LookupFindsHost(srv, primary.name);
    if id != NONE {
      var k: nat :| k < |candidates| && candidates[k] != "" && FindsHost(srv, candidates[k], id)
        && forall j: nat | j < k :: candidates[j] == "" || !HostNamed(srv, candidates[j]);
      assert k == 1 ==> candidates[0] == "" || !HostNamed(srv, candidates[0]);
    } else {
      assert candidates[0] == "" || !HostNamed(srv, candidates[0]);
      assert candidates[1] == "" || !HostNamed(srv, candidates[1]);
    }
  }

  /** The planner looks up by address only: the two agree exactly when the address is registered, or the name
      is missing or not registered either. */
  ghost predicate MountsAgree(s: Spec, srv: Server)
    requires Vsas(s.nodes) != []
  {
    var p := Vsas(s.nodes)[0];
    HostNamed(srv, p.ip) || p.name == "" || !HostNamed(srv, p.name)
  }

  lemma MountsAgreeExactly(s: Spec, srv: Server)
    requires Vsas(s.nodes) != [] && Vsas(s.nodes)[0].ip != "" && HasHR(Vias(s.nodes)) && NONE !in srv.hosts
    ensures PlanMount(s, srv) == LiveMount(srv, Vsas(s.nodes)[0]) <==> MountsAgree(s, srv)
  {
  }

  /** So from a server that knows the primary VSA by its name only, plan and wiring leave different
      repositories as soon as one is new; otherwise they leave the same. */
  lemma PlanRefinesVsaWiring(s: Spec, srv0: Server, ids: nat -> Id, schedule: seq<FanOut.Step>)
    requires ReadyForPlan(s, srv0, ids) && AllHaveDuties(ConfigOf(s, NONE)) && SameNames(Vias(s.nodes))
    requires Vsas(s.nodes) != [] && Vsas(s.nodes)[0].ip != ""
    requires var cfg := WiringConfig(s, LiveMount(srv0, Vsas(s.nodes)[0])); Success(Run(cfg, Launch(cfg, srv0), schedule))
    ensures var cfg := WiringConfig(s, LiveMount(srv0, Vsas(s.nodes)[0]));
      var plan, wired := Wired(s, srv0, ids).srv, Run(cfg, Launch(cfg, srv0), schedule).srv;
      && WellFormed(plan) && WellFormed(wired)
      && HostsView(plan) == HostsView(wired) && ProxiesView(plan) == ProxiesView(wired)
      && (ReposView(plan) == ReposView(wired) <==> MountsAgree(s, srv0) || NoNewRepo(cfg, srv0))
  {
    PlanRefinesWiring(s, srv0, ids, LiveMount(srv0, Vsas(s.nodes)[0]), schedule);
    if HasHR(Vias(s.nodes)) {
      MountsAgreeExactly(s, srv0);
    }
  }
}
