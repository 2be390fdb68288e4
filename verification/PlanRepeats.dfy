/** Running the plan on a server that has some of the content already: hosts and repositories are found,
    proxies are doubled. */
module PlanRepeats {
  import opened Topology
  import opened Vbr
  import opened FanOut
  import opened FanOutInvariant
  import opened Bodies
  import opened Planner
  import opened PlanExecution
  import opened PlanRefinement
  import Naming
  import Wire

  /** What holds between node steps on any server the wiring may start from. */
  ghost predicate Underway(cfg: Config, ids: nat -> Id, mount: Option<Var>, m: Machine) {
    m.ok && Supplies(ids, m) && OneHostEach(cfg, m.srv) && LookupOption(m.env, mount) == cfg.mount
  }

  /** The node's host has two proxies. */
  ghost predicate Doubled(cfg: Config, srv: Server, w: nat)
    requires w < |cfg.vias|
  {
    exists h, p, q :: HostOf(cfg, srv, w, h) && ProxyAt(srv, p, h) && ProxyAt(srv, q, h) && p != q
  }

  /** The node is a proxy whose host has one already. */
  ghost predicate HasProxy(cfg: Config, srv: Server, w: nat)
    requires w < |cfg.vias|
  {
    DutyAt(cfg, w).VmwareProxy? && exists h :: HostOf(cfg, srv, w, h) && ProxyOn(srv, h)
  }

  lemma GrowthKeeps(cfg: Config, a: Server, b: Server, w: nat)
    requires Extends(a, b) && w < |cfg.vias|
    ensures HasProxy(cfg, a, w) ==> HasProxy(cfg, b, w)
    ensures Doubled(cfg, a, w) ==> Doubled(cfg, b, w)
  {
    if HasProxy(cfg, a, w) {
      var h :| HostOf(cfg, a, w, h) && ProxyOn(a, h);
      var p :| p in a.proxies && a.proxies[p] == h;
      assert HostOf(cfg, b, w, h) && p in b.proxies && b.proxies[p] == h;
    }
    if Doubled(cfg, a, w) {
      var h, p, q :| HostOf(cfg, a, w, h) && ProxyAt(a, p, h) && ProxyAt(a, q, h) && p != q;
      assert HostOf(cfg, b, w, h) && ProxyAt(b, p, h) && ProxyAt(b, q, h);
    }
  }

  lemma CreateGrows(m: Machine, what: Creation, ids: nat -> Id)
    requires Supplies(ids, m)
    ensures Supplies(ids, PlanExecution.Create(m, what, ids)) && Extends(m.srv, PlanExecution.Create(m, what, ids).srv)
  {
    assert Fresh(m.srv, ids(m.next));
  }

  lemma HostFoundOrAdded(cfg: Config, ids: nat -> Id, mount: Option<Var>, m: Machine, n: nat)
    requires GoodConfig(cfg) && Underway(cfg, ids, mount, m) && n < |cfg.vias| && (mount.None? || mount.value == HrMount)
    ensures var t := RegisterHost(m, cfg.vias[n].ip, HostId(n), ids);
      && Underway(cfg, ids, mount, t) && Extends(m.srv, t.srv)
      && HostId(n) in t.env && HostOf(cfg, t.srv, n, t.env[HostId(n)])
  {
    var name := cfg.vias[n].ip;
    var t := RegisterHost(m, name, HostId(n), ids);
    if !HostNamed(m.srv, name) {
      CreateGrows(m, NewHost(name), ids);
      var id := ids(m.next);
      assert id in t.srv.hosts && t.srv.hosts[id] == name;
      assert forall v, h | 0 <= v < |cfg.vias| && h != id :: HostOf(cfg, t.srv, v, h) == HostOf(cfg, m.srv, v, h);
    }
    LookupFindsHost(t.srv, name);
  }

  lemma RepositoryGrows(cfg: Config, ids: nat -> Id, mount: Option<Var>, m: Machine, n: nat, repo: Repo) returns (t: Machine)
    requires Underway(cfg, ids, mount, m) && (mount.None? || mount.value == HrMount)
    ensures t == AddRepository(m, repo, RepoId(n), ids)
    ensures Underway(cfg, ids, mount, t) && Extends(m.srv, t.srv)
  {
    CreateGrows(m, NewRepo(repo), ids);
    t := AddRepository(m, repo, RepoId(n), ids);
    SameHostsUnique(cfg, m.srv, t.srv);
  }

  lemma ProxyGrows(cfg: Config, ids: nat -> Id, mount: Option<Var>, m: Machine, n: nat, host: Id) returns (t: Machine)
    requires Underway(cfg, ids, mount, m) && n < |cfg.vias| && HostOf(cfg, m.srv, n, host)
    ensures t == AddProxy(m, host, ids)
    ensures Underway(cfg, ids, mount, t) && Extends(m.srv, t.srv)
    ensures HasProxy(cfg, m.srv, n) ==> Doubled(cfg, t.srv, n)
    ensures |t.srv.proxies| == |m.srv.proxies| + 1
  {
    CreateGrows(m, NewProxy(host), ids);
    assert Fresh(m.srv, ids(m.next));
    t := AddProxy(m, host, ids);
    SameHostsUnique(cfg, m.srv, t.srv);
    if HasProxy(cfg, m.srv, n) {
      SecondProxy(cfg, ids, m, n, host);
    }
  }

  /** A node's step only adds, and adds a second proxy to a host that has one. */
  lemma StepDoubles(s: Spec, cfg: Config, ids: nat -> Id, mount: Option<Var>, m: Machine, n: nat) returns (t: Machine)
    requires cfg == ConfigOf(s, cfg.mount) && (mount.None? || mount.value == HrMount)
    requires GoodConfig(cfg) && Underway(cfg, ids, mount, m) && n < |cfg.vias|
    ensures t == Exec(m, ViaStep(s, Vias(s.nodes), n, mount), ids)
    ensures Underway(cfg, ids, mount, t) && Extends(m.srv, t.srv)
    ensures HasProxy(cfg, m.srv, n) ==> Doubled(cfg, t.srv, n)
  {
    var a := RegisterHost(m, cfg.vias[n].ip, HostId(n), ids);
    HostFoundOrAdded(cfg, ids, mount, m, n);
    match DutyAt(cfg, n)
    case HardenedRepo =>
      HrStepRuns(s, cfg, ids, mount, m, n);
      t := RepositoryGrows(cfg, ids, mount, a, n, RepoFor(cfg, n, a.env[HostId(n)]));
      ExtendsTransitive(m.srv, a.srv, t.srv);
    case VmwareProxy =>
      ProxyStepRuns(s, cfg, ids, mount, m, n);
      GrowthKeeps(cfg, m.srv, a.srv, n);
      t := ProxyGrows(cfg, ids, mount, a, n, a.env[HostId(n)]);
      ExtendsTransitive(m.srv, a.srv, t.srv);
    case HostOnly =>
      assert cfg.vias[n] == Named(Vias(s.nodes)[n]);
      t := m;
  }

  lemma ExtendsTransitive(a: Server, b: Server, c: Server)
    requires Extends(a, b) && Extends(b, c)
    ensures Extends(a, c)
  {
  }

  lemma SameHostsUnique(cfg: Config, a: Server, b: Server)
    requires OneHostEach(cfg, a) && b.hosts == a.hosts
    ensures OneHostEach(cfg, b)
  {
    assert forall v, h | 0 <= v < |cfg.vias| :: HostOf(cfg, b, v, h) == HostOf(cfg, a, v, h);
  }

  lemma SecondProxy(cfg: Config, ids: nat -> Id, m: Machine, n: nat, host: Id)
    requires Supplies(ids, m) && n < |cfg.vias| && OneHostEach(cfg, m.srv) && HostOf(cfg, m.srv, n, host) && HasProxy(cfg, m.srv, n)
    ensures Doubled(cfg, AddProxy(m, host, ids).srv, n)
  {
    var t, id := AddProxy(m, host, ids), ids(m.next);
    var h :| HostOf(cfg, m.srv, n, h) && ProxyOn(m.srv, h);
    assert h == host;
    var p :| p in m.srv.proxies && m.srv.proxies[p] == host;
    assert Fresh(m.srv, id);
    assert HostOf(cfg, t.srv, n, host) && ProxyAt(t.srv, p, host) && ProxyAt(t.srv, id, host);
  }

  /** Whether a run that started from base still stands. */
  datatype Standing = Sound | Broken

  ghost function StandingOf(cfg: Config, ids: nat -> Id, mount: Option<Var>, base: Server, m: Machine): Standing {
    if Underway(cfg, ids, mount, m) && Extends(base, m.srv) then Sound else Broken
  }

  lemma NextNode(s: Spec, cfg: Config, ids: nat -> Id, mount: Option<Var>, base: Server, m: Machine, n: nat) returns (t: Machine)
    requires cfg == ConfigOf(s, cfg.mount) && (mount.None? || mount.value == HrMount)
    requires GoodConfig(cfg) && n < |cfg.vias| && StandingOf(cfg, ids, mount, base, m) == Sound
    ensures t == Exec(m, ViaStep(s, Vias(s.nodes), n, mount), ids)
    ensures StandingOf(cfg, ids, mount, base, t) == Sound
  {
    t := StepDoubles(s, cfg, ids, mount, m, n);
    ExtendsTransitive(base, m.srv, t.srv);
  }

  /** Steps only add. */
  lemma StepsGrow(s: Spec, cfg: Config, ids: nat -> Id, mount: Option<Var>, m: Machine, start: Machine, k: nat, j: nat) returns (t: Machine)
    requires cfg == ConfigOf(s, cfg.mount) && (mount.None? || mount.value == HrMount)
    requires GoodConfig(cfg) && k <= j <= |cfg.vias| && start == AfterNodes(m, s, k, mount, ids) && Underway(cfg, ids, mount, start)
    ensures t == AfterNodes(m, s, j, mount, ids) && Underway(cfg, ids, mount, t) && Extends(start.srv, t.srv)
  {
    hide Exec, ViaStep;
    t := start;
    for n := k to j
      invariant t == AfterNodes(m, s, n, mount, ids)
      invariant StandingOf(cfg, ids, mount, start.srv, t) == Sound
    {
      t := NextNode(s, cfg, ids, mount, start.srv, t, n);
    }
  }

  /** A proxy node whose host has a proxy at the start has two at the end. */
  lemma NodesDouble(s: Spec, cfg: Config, ids: nat -> Id, mount: Option<Var>, m: Machine, w: nat) returns (t: Machine)
    requires cfg == ConfigOf(s, cfg.mount) && (mount.None? || mount.value == HrMount)
    requires GoodConfig(cfg) && Underway(cfg, ids, mount, m) && w < |cfg.vias| && HasProxy(cfg, m.srv, w)
    ensures t == AfterNodes(m, s, |cfg.vias|, mount, ids)
    ensures Doubled(cfg, t.srv, w)
  {
    hide Exec, ViaStep;
    var before := StepsGrow(s, cfg, ids, mount, m, m, 0, w);
    GrowthKeeps(cfg, m.srv, before.srv, w);
    var after := StepDoubles(s, cfg, ids, mount, before, w);
    t := StepsGrow(s, cfg, ids, mount, m, after, w + 1, |cfg.vias|);
    GrowthKeeps(cfg, after.srv, t.srv, w);
  }

  /** The machine after the license and mount steps. */
  lemma WiringRuns(s: Spec, srv0: Server, ids: nat -> Id) returns (m: Machine)
    ensures m == Begin(srv0).(env := m.env)
    ensures LookupOption(m.env, Mount(Vsas(s.nodes), Vias(s.nodes))) == PlanMount(s, srv0)
    ensures PlanRefinement.Wired(s, srv0, ids) == AfterNodes(m, s, |Vias(s.nodes)|, Mount(Vsas(s.nodes), Vias(s.nodes)), ids)
  {
    var vsas, vias := Vsas(s.nodes), Vias(s.nodes);
    var m0 := Begin(srv0);
    var license, mount, nodes := LicensePart(s), MountPart(vsas, vias), ViaPart(s, vias, |vias|, Mount(vsas, vias));
    ExecConcat(m0, license + mount, nodes, ids);
    ExecConcat(m0, license, mount, ids);
    LicenseExecuted(m0, s, ids);
    MountExecuted(m0, s, ids);
    m := Exec(m0, mount, ids);
    NodePartRuns(m, s, Mount(vsas, vias), ids);
  }

  lemma WiringDoubles(s: Spec, srv0: Server, ids: nat -> Id, w: nat)
    requires GoodStart(ConfigOf(s, NONE), srv0) && Supplies(ids, Begin(srv0))
    requires var cfg := ConfigOf(s, PlanMount(s, srv0)); w < |cfg.vias| && HasProxy(cfg, srv0, w)
    ensures Doubled(ConfigOf(s, PlanMount(s, srv0)), PlanRefinement.Wired(s, srv0, ids).srv, w)
  {
    var cfg := ConfigOf(s, PlanMount(s, srv0));
    Wire.AnyMount(ConfigOf(s, NONE), cfg.mount, srv0);
    var m := WiringRuns(s, srv0, ids);
    var t := NodesDouble(s, cfg, ids, Mount(Vsas(s.nodes), Vias(s.nodes)), m, w);
  }

  /** From any server the wiring may start from, the plan leaves one proxy per host exactly when no proxy node
      had one: the script adds proxies without looking for them. */
  lemma OneProxyExactly(s: Spec, srv0: Server, ids: nat -> Id)
    requires GoodStart(ConfigOf(s, NONE), srv0) && Supplies(ids, Begin(srv0))
    ensures OneProxyEach(ConfigOf(s, NONE), PlanRefinement.Wired(s, srv0, ids).srv) <==> NoProxiesYet(ConfigOf(s, NONE), srv0, 0)
  {
    var c0, cfg := ConfigOf(s, NONE), ConfigOf(s, PlanMount(s, srv0));
    var t := PlanRefinement.Wired(s, srv0, ids);
    assert forall w, h | 0 <= w < |cfg.vias| :: HostOf(cfg, t.srv, w, h) == HostOf(c0, t.srv, w, h);
    if NoProxiesYet(c0, srv0, 0) {
      WiringExecuted(s, srv0, ids);
    } else {
      var w: nat, h :| w < |c0.vias| && DutyAt(c0, w).VmwareProxy? && HostOf(c0, srv0, w, h) && ProxyOn(srv0, h);
      assert HostOf(cfg, srv0, w, h) && HasProxy(cfg, srv0, w);
      WiringDoubles(s, srv0, ids, w);
    }
  }

  // ---- running it again ----

  function ProxyNodes(vias: seq<Node>, n: nat): nat
    requires n <= |vias|
  {
    if n == 0 then 0 else ProxyNodes(vias, n - 1) + (if DutyOf(vias[n - 1].role).VmwareProxy? then 1 else 0)
  }

  /** On a wired server a node's step finds its host and repository and adds one proxy per proxy node. */
  lemma StepRepeats(s: Spec, cfg: Config, ids: nat -> Id, mount: Option<Var>, a: Server, m: Machine, n: nat) returns (t: Machine)
    requires cfg == ConfigOf(s, cfg.mount) && (mount.None? || mount.value == HrMount)
    requires Underway(cfg, ids, mount, m) && m.srv == a.(proxies := m.srv.proxies) && WiredUpTo(cfg, a, |cfg.vias|) && n < |cfg.vias|
    ensures t == Exec(m, ViaStep(s, Vias(s.nodes), n, mount), ids)
    ensures Underway(cfg, ids, mount, t) && t.srv == a.(proxies := t.srv.proxies)
    ensures |t.srv.proxies| == |m.srv.proxies| + (if DutyAt(cfg, n).VmwareProxy? then 1 else 0)
  {
    var r := RegisterHost(m, cfg.vias[n].ip, HostId(n), ids);
    match DutyAt(cfg, n)
    case HardenedRepo =>
      HrStepRuns(s, cfg, ids, mount, m, n);
      WiredIsNamed(cfg, a, m.srv, n);
      t := AddRepository(r, RepoFor(cfg, n, r.env[HostId(n)]), RepoId(n), ids);
    case VmwareProxy =>
      ProxyStepRuns(s, cfg, ids, mount, m, n);
      WiredIsNamed(cfg, a, m.srv, n);
      LookupFindsHost(m.srv, cfg.vias[n].ip);
      t := ProxyGrows(cfg, ids, mount, r, n, r.env[HostId(n)]);
    case HostOnly =>
      assert cfg.vias[n] == Named(Vias(s.nodes)[n]);
      t := m;
  }

  lemma WiredIsNamed(cfg: Config, a: Server, b: Server, n: nat)
    requires WiredUpTo(cfg, a, |cfg.vias|) && n < |cfg.vias| && !DutyAt(cfg, n).HostOnly? && b == a.(proxies := b.proxies)
    ensures HostNamed(b, cfg.vias[n].ip)
    ensures DutyAt(cfg, n).HardenedRepo? ==> RepoNamed(b, Naming.RepoName(cfg.vias, n))
  {
    assert NodeWired(cfg, a, n);
    var h :| HostOf(cfg, a, n, h) && Equipped(cfg, a, n, h);
    assert h in b.hosts && b.hosts[h] == cfg.vias[n].ip;
  }

  lemma NodesRepeat(s: Spec, cfg: Config, ids: nat -> Id, mount: Option<Var>, a: Server, m: Machine) returns (t: Machine)
    requires cfg == ConfigOf(s, cfg.mount) && (mount.None? || mount.value == HrMount)
    requires Underway(cfg, ids, mount, m) && m.srv == a && WiredUpTo(cfg, a, |cfg.vias|)
    ensures t == AfterNodes(m, s, |cfg.vias|, mount, ids) && t.srv == a.(proxies := t.srv.proxies)
    ensures |t.srv.proxies| == |a.proxies| + ProxyNodes(cfg.vias, |cfg.vias|)
  {
    t := m;
    for n := 0 to |cfg.vias|
      invariant t == AfterNodes(m, s, n, mount, ids)
      invariant Underway(cfg, ids, mount, t) && t.srv == a.(proxies := t.srv.proxies)
      invariant |t.srv.proxies| == |a.proxies| + ProxyNodes(cfg.vias, n)
    {
      t := StepRepeats(s, cfg, ids, mount, a, t, n);
    }
  }

  /** The node steps run a second time change nothing but the proxies: each proxy node gets one more, so a
      host has two unless there is no proxy node. */
  lemma SecondRunExactly(s: Spec, srv0: Server, ids: nat -> Id, more: nat -> Id)
    requires ReadyForPlan(s, srv0, ids)
    requires Supplies(more, Begin(PlanRefinement.Wired(s, srv0, ids).srv))
    ensures var cfg := ConfigOf(s, NONE); var once := PlanRefinement.Wired(s, srv0, ids).srv; var twice := PlanRefinement.Wired(s, once, more).srv;
      && twice == once.(proxies := twice.proxies)
      && |twice.proxies| == |once.proxies| + ProxyNodes(cfg.vias, |cfg.vias|)
      && (OneProxyEach(cfg, twice) <==> forall w | 0 <= w < |cfg.vias| :: !DutyAt(cfg, w).VmwareProxy?)
  {
    var once := PlanRefinement.Wired(s, srv0, ids).srv;
    assert forall w | 0 <= w < |Vias(s.nodes)| :: DutyAt(ConfigOf(s, NONE), w) == DutyAt(ConfigOf(s, PlanMount(s, srv0)), w);
    assert ConfigOf(s, NONE).vias == ConfigOf(s, PlanMount(s, srv0)).vias;
    WiredIsReady(s, srv0, ids);
    SecondRunDoubles(s, ConfigOf(s, PlanMount(s, srv0)), once, more);
    var twice := SecondRunAdds(s, ConfigOf(s, PlanMount(s, srv0)), once, more);
  }

  lemma WiredIsReady(s: Spec, srv0: Server, ids: nat -> Id)
    requires ReadyForPlan(s, srv0, ids)
    ensures var cfg, once := ConfigOf(s, PlanMount(s, srv0)), PlanRefinement.Wired(s, srv0, ids).srv;
      GoodStart(cfg, once) && WiredUpTo(cfg, once, |cfg.vias|)
  {
    WiringExecuted(s, srv0, ids);
  }

  lemma SecondRunAdds(s: Spec, cfg: Config, once: Server, more: nat -> Id) returns (twice: Machine)
    requires cfg == ConfigOf(s, cfg.mount) && OneHostEach(cfg, once) && WiredUpTo(cfg, once, |cfg.vias|)
    requires Supplies(more, Begin(once))
    ensures twice == PlanRefinement.Wired(s, once, more)
    ensures twice.srv == once.(proxies := twice.srv.proxies)
    ensures |twice.srv.proxies| == |once.proxies| + ProxyNodes(cfg.vias, |cfg.vias|)
  {
    var again := ConfigOf(s, PlanMount(s, once));
    WiredForAnyMount(cfg, again, once);
    assert forall w, h | 0 <= w < |cfg.vias| :: HostOf(again, once, w, h) == HostOf(cfg, once, w, h);
    var m := WiringRuns(s, once, more);
    twice := NodesRepeat(s, again, more, Mount(Vsas(s.nodes), Vias(s.nodes)), once, m);
  }

  lemma SecondRunDoubles(s: Spec, cfg: Config, once: Server, more: nat -> Id)
    requires cfg == ConfigOf(s, cfg.mount) && GoodStart(cfg, once) && WiredUpTo(cfg, once, |cfg.vias|)
    requires Supplies(more, Begin(once))
    ensures OneProxyEach(ConfigOf(s, NONE), PlanRefinement.Wired(s, once, more).srv)
        <==> forall w | 0 <= w < |cfg.vias| :: !DutyAt(cfg, w).VmwareProxy?
  {
    var c0 := ConfigOf(s, NONE);
    Wire.AnyMount(cfg, NONE, once);
    OneProxyExactly(s, once, more);
    WiredForAnyMount(cfg, c0, once);
    WiredHaveProxies(c0, once);
    assert forall w | 0 <= w < |cfg.vias| :: DutyAt(cfg, w) == DutyAt(c0, w);
  }

  lemma WiredForAnyMount(a: Config, b: Config, srv: Server)
    requires WiredUpTo(a, srv, |a.vias|) && b == a.(mount := b.mount)
    ensures WiredUpTo(b, srv, |b.vias|)
  {
    forall w | 0 <= w < |b.vias| && !DutyAt(b, w).HostOnly? ensures NodeWired(b, srv, w) {
      assert DutyAt(a, w) == DutyAt(b, w) && NodeWired(a, srv, w);
      var h :| HostOf(a, srv, w, h) && Equipped(a, srv, w, h);
      assert HostOf(b, srv, w, h) && Equipped(b, srv, w, h);
    }
  }

  /** On a wired server no proxy node is without a proxy. */
  lemma WiredHaveProxies(cfg: Config, srv: Server)
    requires WiredUpTo(cfg, srv, |cfg.vias|)
    ensures NoProxiesYet(cfg, srv, 0) <==> forall w | 0 <= w < |cfg.vias| :: !DutyAt(cfg, w).VmwareProxy?
  {
    forall w | 0 <= w < |cfg.vias| && DutyAt(cfg, w).VmwareProxy? ensures !NoProxiesYet(cfg, srv, 0) {
      assert NodeWired(cfg, srv, w);
      var h :| HostOf(cfg, srv, w, h) && Equipped(cfg, srv, w, h);
      assert ProxyOn(srv, h);
    }
  }
}
