/** The plan from the start server to the cluster: exactly when it gets through, and against the wiring's own
    end. */
module PlanCluster {
  import opened Topology
  import opened Vbr
  import opened Naming
  import opened FanOut
  import opened FanOutInvariant
  import opened FanOutTheorems
  import opened FanOutSteps
  import opened Bodies
  import opened Planner
  import opened PlanExecution
  import opened PlanRefinement
  import Wire

  // ---- the cluster part's steps ----

  /** The machine once the configuration backup points at id and the default repository has been looked up. */
  ghost function Redirected(m: Machine, id: Id): Machine {
    var srv := m.srv.(configTarget := id, snmp := false);
    m.(srv := srv, env := m.env[DefaultRepo := RepoIdOf(srv, DEFAULT_REPOSITORY)])
  }

  lemma RedirectExecuted(s: Spec, m: Machine, id: Id, ids: nat -> Id)
    requires |Vsas(s.nodes)| >= 2 && m.ok && id != NONE
    requires Planner.Target(Vias(s.nodes)) in m.env && m.env[Planner.Target(Vias(s.nodes))] == id
    ensures var h := HaPart(s, Vsas(s.nodes), Vias(s.nodes)); ExecStep(ExecStep(m, h[0], ids), h[1], ids) == Redirected(m, id)
  {
  }

  /** The two VSAs, the name and the endpoint as a cluster shows them. */
  function Members(s: Spec): seq<string>
    requires |Vsas(s.nodes)| >= 2
  {
    var p, q := Vsas(s.nodes)[0], Vsas(s.nodes)[1];
    [p.ip, q.ip, if s.clusterDns == "" then p.name else s.clusterDns, s.clusterEndpoint]
  }

  /** The login and the certificate the script holds before the last call: the user's own login, and the
      secondary VSA's certificate fetched with it. */
  ghost predicate HasMembersPapers(s: Spec, m: Machine)
    requires |Vsas(s.nodes)| >= 2
  {
    var login := Login(Given(if s.username == "" then "veeamadmin" else s.username), Ref(Password));
    && HaCred in m.logins && m.logins[HaCred] == login
    && HaCert in m.certificates && m.certificates[HaCert] == Certificate(Given(Vsas(s.nodes)[1].ip), login)
  }

  lemma PapersFetched(s: Spec, m: Machine, ids: nat -> Id)
    requires |Vsas(s.nodes)| >= 2 && m.ok
    ensures var h := HaPart(s, Vsas(s.nodes), Vias(s.nodes)); var t := ExecStep(ExecStep(m, h[3], ids), h[4], ids);
      t.ok && t.srv == m.srv && HasMembersPapers(s, t)
  {
    hide At, CredentialsItems, CertificateItems, ClusterItems;
    var h := HaPart(s, Vsas(s.nodes), Vias(s.nodes));
    CredentialsRead(s);
    CertificateRead(Vsas(s.nodes)[1]);
    var t := ExecStep(m, h[3], ids);
    assert t == PostLogin(m, CredentialsItems(s), [HaCred]);
    assert ExecStep(t, h[4], ids) == FetchCertificate(t, CertificateItems(Vsas(s.nodes)[1]), [HaCert]);
  }

  lemma CredentialsRead(s: Spec)
    ensures At(CredentialsItems(s), AccountName) == Some(Given(if s.username == "" then "veeamadmin" else s.username))
    ensures At(CredentialsItems(s), AccountPassword) == Some(Ref(Password))
  {
    var b := CredentialsItems(s);
    assert b[1..][0] == b[1] && b[1..][1..][0] == b[2];
    assert At(b, AccountName) == At(b[1..], AccountName);
    assert At(b, AccountPassword) == At(b[1..], AccountPassword) == At(b[1..][1..], AccountPassword);
  }

  lemma CertificateRead(q: Node)
    ensures At(CertificateItems(q), ServerName) == Some(Given(q.ip)) && RefAt(CertificateItems(q), CredentialsId) == Some(HaCred)
  {
    var b := CertificateItems(q);
    assert b[1..][0] == b[1] && b[1..][1..][0] == b[2];
    assert At(b, CredentialsId) == At(b[1..], CredentialsId) == At(b[1..][1..], CredentialsId);
  }

  lemma {:induction false} AtSkips(a: seq<Item>, b: seq<Item>, key: Key)
    requires forall k | 0 <= k < |a| :: a[k].key != key
    ensures At(a + b, key) == At(b, key)
    decreases |a|
  {
    if a == [] {
      assert a + b == b;
    } else {
      assert (a + b)[1..] == a[1..] + b;
      AtSkips(a[1..], b, key);
    }
  }

  lemma AtIndex(body: seq<Item>, i: nat)
    requires i < |body| && forall k | 0 <= k < i :: body[k].key != body[i].key
    ensures At(body, body[i].key) == Some(body[i].text)
  {
    AtSkips(body[..i], body[i..], body[i].key);
    assert body[..i] + body[i..] == body && body[i..][0] == body[i];
  }

  lemma NotThere(body: seq<Item>, key: Key)
    requires forall k | 0 <= k < |body| :: body[k].key != key
    ensures At(body, key) == None
  {
    AtSkips(body, [], key);
    assert body + [] == body;
  }

  lemma ClusterRead(s: Spec, p: Node, q: Node)
    ensures var b := ClusterItems(s, p, q);
      && At(b, PrimaryIp) == Some(Given(p.ip)) && At(b, SecondaryIp) == Some(Given(q.ip))
      && At(b, ClusterName) == Some(Given(if s.clusterDns == "" then p.name else s.clusterDns))
      && RefAt(b, SecondaryCredentials) == Some(HaCred) && RefAt(b, CertificateText) == Some(HaCert)
      && At(b, ClusterEndpoint) == if s.clusterEndpoint == "" then None else Some(Given(s.clusterEndpoint))
  {
    hide At;
    var b := ClusterItems(s, p, q);
    AtIndex(b, 0);
    AtIndex(b, 1);
    AtIndex(b, 2);
    AtIndex(b, 3);
    AtIndex(b, 4);
    if s.clusterEndpoint == "" {
      NotThere(b, ClusterEndpoint);
    } else {
      AtIndex(b, 6);
    }
  }

  lemma ClusterPosted(s: Spec, m: Machine, ids: nat -> Id) returns (t: Machine)
    requires |Vsas(s.nodes)| >= 2 && m.ok && HasMembersPapers(s, m)
    ensures t == ExecStep(m, HaPart(s, Vsas(s.nodes), Vias(s.nodes))[5], ids)
    ensures (t.ok <==> s.clusterEndpoint != "") && t.srv == (if t.ok then m.srv.(cluster := Members(s)) else m.srv) && HasMembersPapers(s, t)
  {
    hide At, ClusterItems;
    var body := ClusterItems(s, Vsas(s.nodes)[0], Vsas(s.nodes)[1]);
    ClusterRead(s, Vsas(s.nodes)[0], Vsas(s.nodes)[1]);
    t := ExecStep(m, HaPart(s, Vsas(s.nodes), Vias(s.nodes))[5], ids);
    assert t == if ClusterAccepted(m, body) then m.(srv := m.srv.(cluster := ClusterOf(body))) else m.(ok := false);
  }

  /** Credentials and certificate leave the server's inventory alone; the last call creates the cluster if the
      endpoint is configured. */
  lemma MembersExecuted(s: Spec, m: Machine, ids: nat -> Id)
    requires |Vsas(s.nodes)| >= 2
    ensures var h := HaPart(s, Vsas(s.nodes), Vias(s.nodes));
      var t := ExecStep(ExecStep(ExecStep(m, h[3], ids), h[4], ids), h[5], ids);
      && (t.ok <==> m.ok && s.clusterEndpoint != "")
      && t.srv == (if t.ok then m.srv.(cluster := Members(s)) else m.srv)
      && (t.ok ==> HasMembersPapers(s, t))
  {
    assert |HaPart(s, Vsas(s.nodes), Vias(s.nodes))| == 6;
    hide ExecStep, HaPart, HasMembersPapers;
    if m.ok {
      PapersFetched(s, m, ids);
      var h := HaPart(s, Vsas(s.nodes), Vias(s.nodes));
      var t := ClusterPosted(s, ExecStep(ExecStep(m, h[3], ids), h[4], ids), ids);
    } else {
      StaysFailed(s, m, ids);
    }
  }

  lemma StaysFailed(s: Spec, m: Machine, ids: nat -> Id)
    requires |Vsas(s.nodes)| >= 2 && !m.ok
    ensures var h := HaPart(s, Vsas(s.nodes), Vias(s.nodes)); ExecStep(ExecStep(ExecStep(m, h[3], ids), h[4], ids), h[5], ids) == m
  {
  }

  lemma SixSteps(m: Machine, h: seq<Planner.Step>, ids: nat -> Id)
    requires |h| == 6
    ensures Exec(m, h, ids)
         == ExecStep(ExecStep(ExecStep(ExecStep(ExecStep(ExecStep(m, h[0], ids), h[1], ids), h[2], ids), h[3], ids), h[4], ids), h[5], ids)
  {
    assert h == [h[0]] + ([h[1]] + ([h[2]] + ([h[3]] + ([h[4]] + [h[5]]))));
    var m1 := ExecStep(m, h[0], ids);
    var m2 := ExecStep(m1, h[1], ids);
    var m3 := ExecStep(m2, h[2], ids);
    var m4 := ExecStep(m3, h[3], ids);
    ThenRest(m, h[0], [h[1]] + ([h[2]] + ([h[3]] + ([h[4]] + [h[5]]))), ids);
    ThenRest(m1, h[1], [h[2]] + ([h[3]] + ([h[4]] + [h[5]])), ids);
    ThenRest(m2, h[2], [h[3]] + ([h[4]] + [h[5]]), ids);
    ThenRest(m3, h[3], [h[4]] + [h[5]], ids);
    ThenRest(m4, h[4], [h[5]], ids);
    ExecOne(ExecStep(m4, h[4], ids), h[5], ids);
  }

  lemma ThenRest(m: Machine, step: Planner.Step, rest: seq<Planner.Step>, ids: nat -> Id)
    ensures Exec(m, [step] + rest, ids) == Exec(ExecStep(m, step, ids), rest, ids)
  {
    assert ([step] + rest)[1..] == rest;
  }

  /** The deletion gets through exactly when there is a default repository without backups, and then removes
      just that. */
  lemma DefaultRemoved(m: Machine, t: Machine, step: Planner.Step, ids: nat -> Id)
    requires m.ok && Wire.OneDefault(m.srv) && WellFormed(m.srv)
    requires step == Request(DeleteRepository, [Ref(DefaultRepo)], [], [], None) && t == ExecStep(m, step, ids)
    requires DefaultRepo in m.env && m.env[DefaultRepo] == RepoIdOf(m.srv, DEFAULT_REPOSITORY)
    ensures t.ok <==> RepoNamed(m.srv, DEFAULT_REPOSITORY) && Wire.BackupFree(m.srv, RepoIdOf(m.srv, DEFAULT_REPOSITORY))
    ensures t.srv == if t.ok then m.srv.(repos := Wire.WithoutDefault(m.srv.repos)) else m.srv
  {
    if RepoNamed(m.srv, DEFAULT_REPOSITORY) {
      Wire.OnlyRepository(m.srv, RepoIdOf(m.srv, DEFAULT_REPOSITORY));
    }
  }

  /** When the cluster part gets through. */
  ghost predicate ClusterPossible(s: Spec, srv: Server) {
    && RepoNamed(srv, DEFAULT_REPOSITORY) && Wire.BackupFree(srv, RepoIdOf(srv, DEFAULT_REPOSITORY))
    && s.clusterEndpoint != ""
  }

  /** Redirection, removal of the default repository, cluster: the script gets through exactly when the default
      repository exists and holds no backup and the endpoint is configured; the server is then the wired one
      with just these three things done. Otherwise no cluster is created. */
  lemma ClusterExecuted(s: Spec, cfg: Config, srv0: Server, ids: nat -> Id, mount: Option<Var>, m: Machine, first: nat)
    returns (t: Machine)
    requires |Vsas(s.nodes)| >= 2 && first < |cfg.vias| && FirstHR(Vias(s.nodes)) == first && cfg == ConfigOf(s, cfg.mount)
    requires Progress(cfg, srv0, ids, mount, |cfg.vias|, m) && Wire.OneDefault(m.srv)
    ensures t == Exec(m, HaPart(s, Vsas(s.nodes), Vias(s.nodes)), ids)
    ensures t.ok <==> ClusterPossible(s, m.srv)
    ensures t.ok ==> t.srv == m.srv.(repos := Wire.WithoutDefault(m.srv.repos), configTarget := t.srv.configTarget, snmp := false,
                                     cluster := Members(s))
    ensures t.ok ==> NamedRepo(cfg, m.srv, first, t.srv.configTarget)
    ensures !t.ok ==> t.srv.cluster == m.srv.cluster
    ensures t.ok ==> HasMembersPapers(s, t)
  {
    var vsas, vias := Vsas(s.nodes), Vias(s.nodes);
    var h := HaPart(s, vsas, vias);
    assert DutyAt(cfg, first).HardenedRepo?;
    assert RepoId(first) in m.env && NamedRepo(cfg, m.srv, first, m.env[RepoId(first)]);
    var m2 := Redirected(m, m.env[RepoId(first)]);
    RedirectExecuted(s, m, m.env[RepoId(first)], ids);
    SameDefault(m.srv, m2.srv);
    var m3 := ExecStep(m2, h[2], ids);
    DefaultRemoved(m2, m3, h[2], ids);
    SixSteps(m, h, ids);
    MembersExecuted(s, m3, ids);
    t := Exec(m, h, ids);
  }

  /** Servers with the same repositories and backups have the same default repository. */
  lemma SameDefault(a: Server, b: Server)
    requires b.repos == a.repos && b.backups == a.backups && Wire.OneDefault(a)
    ensures RepoNamed(b, DEFAULT_REPOSITORY) == RepoNamed(a, DEFAULT_REPOSITORY)
    ensures RepoIdOf(b, DEFAULT_REPOSITORY) == RepoIdOf(a, DEFAULT_REPOSITORY)
    ensures Wire.OneDefault(b)
  {
  }

  // ---- from the start ----

  /** Node and cluster parts, run from the start server. */
  ghost function WholePlan(s: Spec, srv0: Server, ids: nat -> Id): Machine {
    Exec(Begin(srv0), WiringPart(s) + HaPart(s, Vsas(s.nodes), Vias(s.nodes)), ids)
  }

  /** The fan-out's entries change nothing about the default repository. */
  lemma DefaultKept(cfg: Config, srv0: Server, srv: Server)
    requires Wire.OneDefault(srv0) && Extends(srv0, srv) && OnlyWanted(cfg, srv0, srv)
    ensures RepoNamed(srv, DEFAULT_REPOSITORY) == RepoNamed(srv0, DEFAULT_REPOSITORY)
    ensures RepoIdOf(srv, DEFAULT_REPOSITORY) == RepoIdOf(srv0, DEFAULT_REPOSITORY)
    ensures srv.backups == srv0.backups
  {
    Wire.DefaultStaysSingle(cfg, srv0, srv);
    if RepoNamed(srv, DEFAULT_REPOSITORY) {
      var r := RepoIdOf(srv, DEFAULT_REPOSITORY);
      if r !in srv0.repos {
        var w: nat :| WantedRepo(cfg, srv0, srv, w, r);
        RepoNameIsNotDefault(cfg.vias, w);
      }
    }
    if RepoNamed(srv0, DEFAULT_REPOSITORY) {
      var r := RepoIdOf(srv0, DEFAULT_REPOSITORY);
      assert r in srv.repos && srv.repos[r].name == DEFAULT_REPOSITORY;
    }
  }

  /** The whole plan gets through exactly when the start server has a default repository without backups and
      the endpoint is configured. It then leaves the wired server with the configuration backup on the first
      hardened repository, the default one removed and the cluster standing. */
  lemma ClusterPlanExactly(s: Spec, srv0: Server, ids: nat -> Id) returns (t: Machine, first: nat)
    requires ReadyForPlan(s, srv0, ids) && |Vsas(s.nodes)| >= 2 && HasHR(Vias(s.nodes)) && Wire.OneDefault(srv0)
    ensures t == WholePlan(s, srv0, ids) && IsFirstHR(Vias(s.nodes), first)
    ensures t.ok <==> ClusterPossible(s, srv0)
    ensures t.ok ==> Wire.Clustered(PlanRefinement.Wired(s, srv0, ids).srv, t.srv, t.srv.configTarget, Members(s))
    ensures t.ok ==> NamedRepo(ConfigOf(s, PlanMount(s, srv0)), PlanRefinement.Wired(s, srv0, ids).srv, first, t.srv.configTarget)
    ensures !t.ok ==> t.srv.cluster == srv0.cluster
    ensures t.ok ==> HasMembersPapers(s, t)
  {
    var cfg, m := ConfigOf(s, PlanMount(s, srv0)), PlanRefinement.Wired(s, srv0, ids);
    WiringExecuted(s, srv0, ids);
    Wire.DefaultStaysSingle(cfg, srv0, m.srv);
    DefaultKept(cfg, srv0, m.srv);
    ExecConcat(Begin(srv0), WiringPart(s), HaPart(s, Vsas(s.nodes), Vias(s.nodes)), ids);
    first := FirstHR(Vias(s.nodes));
    t := ClusterExecuted(s, cfg, srv0, ids, Mount(Vsas(s.nodes), Vias(s.nodes)), m, first);
  }

  // ---- against the wiring's end ----

  /** What a hardened repository's record shows once its node is wired: the record the start server had under
      that name, or else the topology's own. */
  ghost function RepoShown(cfg: Config, srv0: Server, w: nat): RepoView
    requires w < |cfg.vias| && WellFormed(srv0)
  {
    var name := RepoName(cfg.vias, w);
    if RepoNamed(srv0, name) then ViewRepo(srv0, srv0.repos[RepoIdOf(srv0, name)])
    else RepoView(name, cfg.vias[w].ip, cfg.path, cfg.days, cfg.mount)
  }

  lemma RecordIsShown(cfg: Config, srv0: Server, srv: Server, w: nat, r: Id)
    requires GoodStart(cfg, srv0) && ServerInv(cfg, srv0, srv)
    requires w < |cfg.vias| && DutyAt(cfg, w).HardenedRepo? && NamedRepo(cfg, srv, w, r)
    ensures ViewRepo(srv, srv.repos[r]) == RepoShown(cfg, srv0, w)
  {
    var name := RepoName(cfg.vias, w);
    if RepoNamed(srv0, name) {
      var q := RepoIdOf(srv0, name);
      assert NamedRepo(cfg, srv, w, q);
    } else {
      assert r !in srv0.repos;
      var u: nat :| WantedRepo(cfg, srv0, srv, u, r);
      assert GoodNames(cfg);
      assert u == w;
    }
  }

  /** The record of the repository the configuration backup goes to. */
  ghost function TargetView(srv: Server): Option<RepoView>
    requires WellFormed(srv)
  {
    if srv.configTarget in srv.repos then Some(ViewRepo(srv, srv.repos[srv.configTarget])) else None
  }

  /** Removing the default repository does not touch the first hardened one. */
  lemma TargetOfClustered(cfg: Config, srv0: Server, wired: Server, done: Server, members: seq<string>, first: nat)
    requires GoodStart(cfg, srv0) && ServerInv(cfg, srv0, wired) && Wire.Clustered(wired, done, done.configTarget, members)
    requires first < |cfg.vias| && DutyAt(cfg, first).HardenedRepo? && NamedRepo(cfg, wired, first, done.configTarget)
    ensures WellFormed(done) && TargetView(done) == Some(RepoShown(cfg, srv0, first))
  {
    RepoNameIsNotDefault(cfg.vias, first);
    RecordIsShown(cfg, srv0, wired, first, done.configTarget);
    assert ViewRepo(done, done.repos[done.configTarget]) == ViewRepo(wired, wired.repos[done.configTarget]);
  }

  /** Two configurations that are alike show the first repository alike exactly when the mount server is the
      same or the repository was there before. */
  lemma ShownAlike(a: Config, b: Config, srv0: Server, w: nat)
    requires Alike(a, b) && WellFormed(srv0) && w < |b.vias| && DutyAt(b, w).HardenedRepo?
    ensures RepoShown(a, srv0, w) == RepoShown(b, srv0, w) <==> a.mount == b.mount || RepoNamed(srv0, RepoName(b.vias, w))
  {
  }

  lemma AfterRun(cfg: Config, srv0: Server, schedule: seq<FanOut.Step>)
    requires GoodStart(cfg, srv0)
    ensures ServerInv(cfg, srv0, Run(cfg, Launch(cfg, srv0), schedule).srv)
  {
    StartHasInv(cfg, srv0);
    RunKeepsInv(cfg, srv0, Launch(cfg, srv0), schedule);
  }

  lemma TargetsAgree(a: Config, b: Config, srv0: Server, wired: Server, plan: Server, end: Server, done: Server, members: seq<string>, first: nat)
    requires Alike(a, b) && GoodStart(a, srv0) && GoodStart(b, srv0) && ServerInv(a, srv0, wired) && ServerInv(b, srv0, end)
    requires Wire.Clustered(wired, plan, plan.configTarget, members) && Wire.Clustered(end, done, done.configTarget, members)
    requires first < |b.vias| && DutyAt(b, first).HardenedRepo?
    requires NamedRepo(a, wired, first, plan.configTarget) && NamedRepo(b, end, first, done.configTarget)
    ensures WellFormed(plan) && WellFormed(done) && TargetView(plan).Some? && TargetView(done).Some?
    ensures TargetView(plan) == TargetView(done) <==> a.mount == b.mount || RepoNamed(srv0, RepoName(b.vias, first))
  {
    TargetOfClustered(a, srv0, wired, plan, members, first);
    TargetOfClustered(b, srv0, end, done, members, first);
    ShownAlike(a, b, srv0, first);
  }

  /** Removing the default repository on both sides keeps equal content equal, and different content different
      when it differs elsewhere. */
  lemma ContentAgrees(wired: Server, plan: Server, end: Server, done: Server, target: Id, other: Id, members: seq<string>)
    requires WellFormed(wired) && WellFormed(end) && WellFormed(plan) && WellFormed(done)
    requires Wire.Clustered(wired, plan, target, members) && Wire.Clustered(end, done, other, members)
    requires forall v: RepoView | v.name == DEFAULT_REPOSITORY :: v in ReposView(wired) <==> v in ReposView(end)
    ensures HostsView(wired) == HostsView(end) ==> HostsView(plan) == HostsView(done)
    ensures ProxiesView(wired) == ProxiesView(end) ==> ProxiesView(plan) == ProxiesView(done)
    ensures ReposView(wired) == ReposView(end) <==> ReposView(plan) == ReposView(done)
  {
    Wire.ReposAfterwards(wired, plan, true);
    Wire.ReposAfterwards(end, done, true);
    if ReposView(plan) == ReposView(done) {
      assert forall v: RepoView | v.name != DEFAULT_REPOSITORY :: v in ReposView(wired) <==> v in ReposView(plan);
      assert forall v: RepoView | v.name != DEFAULT_REPOSITORY :: v in ReposView(end) <==> v in ReposView(done);
    }
  }

  /** The wiring adds no default repository, so both sides show the start server's. */
  lemma DefaultShown(cfg: Config, srv0: Server, srv: Server)
    requires ViewIsExpected(cfg, srv0, srv)
    ensures forall v: RepoView | v.name == DEFAULT_REPOSITORY :: v in ReposView(srv) <==> v in ReposView(srv0)
  {
    forall w | 0 <= w < |cfg.vias| ensures RepoName(cfg.vias, w) != DEFAULT_REPOSITORY {
      RepoNameIsNotDefault(cfg.vias, w);
    }
  }

  lemma DefaultsAgree(s: Spec, srv0: Server, ids: nat -> Id, live: Id, schedule: seq<FanOut.Step>)
    requires ReadyForPlan(s, srv0, ids) && AllHaveDuties(ConfigOf(s, NONE)) && SameNames(Vias(s.nodes))
    requires var b := WiringConfig(s, live); GoodStart(b, srv0) && Success(Run(b, Launch(b, srv0), schedule))
    ensures var b := WiringConfig(s, live); var wired, end := PlanRefinement.Wired(s, srv0, ids).srv, Run(b, Launch(b, srv0), schedule).srv;
      && WellFormed(wired) && WellFormed(end)
      && forall v: RepoView | v.name == DEFAULT_REPOSITORY :: v in ReposView(wired) <==> v in ReposView(end)
  {
    var b := WiringConfig(s, live);
    PlanConverges(s, srv0, ids);
    DefaultShown(ConfigOf(s, PlanMount(s, srv0)), srv0, PlanRefinement.Wired(s, srv0, ids).srv);
    ResumableConvergence(b, srv0, schedule);
    DefaultShown(b, srv0, Run(b, Launch(b, srv0), schedule).srv);
  }

  /** Where the wiring's own cluster steps leave the server, for some successful schedule of the fan-out. */
  ghost predicate WiringEnds(s: Spec, srv0: Server, live: Id, schedule: seq<FanOut.Step>, done: Server)
    requires |Vsas(s.nodes)| >= 2
  {
    var cfg := WiringConfig(s, live);
    var end := Run(cfg, Launch(cfg, srv0), schedule);
    && Success(end) && ReturnsFirstRepo(cfg, end.srv, done.configTarget)
    && Wire.Clustered(end.srv, done, done.configTarget, Members(s))
  }

  /** From one server, a plan that gets through and a wiring that ends well leave the same hosts, proxies and
      cluster, and the same repositories exactly when both pin the same mount server or no repository is new; the
      configuration backup goes to repositories with the same record exactly when both pin the same mount
      server or the first hardened repository was there before. */
  lemma PlanRefinesClusteredWiring(s: Spec, srv0: Server, ids: nat -> Id, live: Id, schedule: seq<FanOut.Step>, done: Server)
    returns (plan: Server, first: nat)
    requires ReadyForPlan(s, srv0, ids) && AllHaveDuties(ConfigOf(s, NONE)) && SameNames(Vias(s.nodes))
    requires |Vsas(s.nodes)| >= 2 && HasHR(Vias(s.nodes)) && Wire.OneDefault(srv0)
    requires ClusterPossible(s, srv0) && WiringEnds(s, srv0, live, schedule, done)
    ensures WholePlan(s, srv0, ids).ok && plan == WholePlan(s, srv0, ids).srv && IsFirstHR(Vias(s.nodes), first)
    ensures WellFormed(plan) && WellFormed(done)
    ensures HostsView(plan) == HostsView(done) && ProxiesView(plan) == ProxiesView(done) && plan.cluster == done.cluster
    ensures ReposView(plan) == ReposView(done) <==> live == PlanMount(s, srv0) || NoNewRepo(WiringConfig(s, live), srv0)
    ensures TargetView(plan).Some? && TargetView(done).Some?
    ensures TargetView(plan) == TargetView(done) <==> live == PlanMount(s, srv0) || RepoNamed(srv0, RepoName(Vias(s.nodes), first))
  {
    var a, b := ConfigOf(s, PlanMount(s, srv0)), WiringConfig(s, live);
    var wired, end := PlanRefinement.Wired(s, srv0, ids).srv, Run(b, Launch(b, srv0), schedule).srv;
    var members := Members(s);
    var t;
    t, first := ClusterPlanExactly(s, srv0, ids);
    plan := t.srv;
    BothReady(s, srv0, ids, live, schedule);
    var i: nat :| IsFirstHR(b.vias, i) && NamedRepo(b, end, i, done.configTarget);
    assert i == first;
    TargetsAgree(a, b, srv0, wired, plan, end, done, members, first);
    PlanRefinesWiring(s, srv0, ids, live, schedule);
    DefaultsAgree(s, srv0, ids, live, schedule);
    ContentAgrees(wired, plan, end, done, plan.configTarget, done.configTarget, members);
  }

  lemma BothReady(s: Spec, srv0: Server, ids: nat -> Id, live: Id, schedule: seq<FanOut.Step>)
    requires ReadyForPlan(s, srv0, ids) && SameNames(Vias(s.nodes))
    ensures var a, b := ConfigOf(s, PlanMount(s, srv0)), WiringConfig(s, live);
      && Alike(a, b) && GoodStart(a, srv0) && GoodStart(b, srv0)
      && ServerInv(a, srv0, PlanRefinement.Wired(s, srv0, ids).srv) && ServerInv(b, srv0, Run(b, Launch(b, srv0), schedule).srv)
  {
    ConfigsAreAlike(s, NONE, live);
    AlikeStart(ConfigOf(s, NONE), WiringConfig(s, live), srv0);
    ConfigsAreAlike(s, PlanMount(s, srv0), live);
    WiringExecuted(s, srv0, ids);
    AfterRun(WiringConfig(s, live), srv0, schedule);
  }
}
