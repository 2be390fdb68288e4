/** Running a plan's node and cluster steps against a server, and comparing the outcome with the live
    wiring's. */
module PlanExecution {
  import opened Topology
  import opened Vbr
  import opened Naming
  import opened FanOut
  import opened FanOutInvariant
  import opened Bodies
  import opened Planner
  import Wire

  /** A login the script has posted, and a certificate it has fetched with one, each under its variable. */
  datatype Login = Login(username: Text, password: Text)

  datatype Certificate = Certificate(server: Text, login: Login)

  /** The script's state: the server, the variables set so far, how many identifiers the server has handed
      out, whether every call so far succeeded, and the logins and certificates it holds. */
  datatype Machine = Machine(
    srv: Server, env: map<Var, Id>, next: nat, ok: bool, logins: map<Var, Login>, certificates: map<Var, Certificate>)

  function Begin(srv: Server): Machine { Machine(srv, map[], 0, true, map[], map[]) }

  /** The value under a key of a body. */
  function At(body: seq<Item>, key: Key): Option<Text> {
    if body == [] then None else if body[0].key == key then Some(body[0].text) else At(body[1..], key)
  }

  /** The variable referred to under a key. */
  function RefAt(body: seq<Item>, key: Key): Option<Var> {
    match At(body, key) case Some(Ref(v)) => Some(v) case _ => None
  }

  predicate GivenAt(body: seq<Item>, key: Key) { At(body, key).Some? && At(body, key).value.Given? }

  function Lookup(env: map<Var, Id>, v: Var): Id { if v in env then env[v] else NONE }

  function LookupOption(env: map<Var, Id>, v: Option<Var>): Id { if v.None? then NONE else Lookup(env, v.value) }

  /** The identifiers still to be handed out are new to the server and differ from each other. */
  ghost predicate Supplies(ids: nat -> Id, m: Machine) {
    && (forall k | k >= m.next :: Fresh(m.srv, ids(k)))
    && (forall j, k | m.next <= j < k :: ids(j) != ids(k))
  }

  ghost function Create(m: Machine, what: Creation, ids: nat -> Id): Machine {
    m.(srv := Created(m.srv, what, ids(m.next)), next := m.next + 1)
  }

  // ---- the helper functions of the script ----

  /** Finds the node's host or adds it, and keeps its identifier. */
  ghost function RegisterHost(m: Machine, name: string, v: Var, ids: nat -> Id): Machine {
    var found := if HostNamed(m.srv, name) then m else Create(m, NewHost(name), ids);
    found.(env := found.env[v := HostIdOf(found.srv, name)])
  }

  /** Finds the repository or adds it. */
  ghost function AddRepository(m: Machine, repo: Repo, v: Var, ids: nat -> Id): Machine {
    var found := if RepoNamed(m.srv, repo.name) then m else Create(m, NewRepo(repo), ids);
    found.(env := found.env[v := RepoIdOf(found.srv, repo.name)])
  }

  /** Adds a proxy, without looking for one first. */
  ghost function AddProxy(m: Machine, host: Id, ids: nat -> Id): Machine {
    Create(m, NewProxy(host), ids)
  }

  /** One step. Deleting needs a repository without backups, a redirection its target. Calls that concern other
      settings leave the machine alone. */
  ghost function ExecStep(m: Machine, step: Planner.Step, ids: nat -> Id): Machine {
    if !m.ok then m else
      match step
      case WireHr(host, repo, ip, _, name, path, days, mount) =>
        var a := RegisterHost(m, ip, host, ids);
        AddRepository(a, Repo(name, Lookup(a.env, host), path, days, LookupOption(a.env, mount)), repo, ids)
      case WireProxy(host, ip, _) =>
        var a := RegisterHost(m, ip, host, ids);
        AddProxy(a, Lookup(a.env, host), ids)
      case Redirect(target) =>
        if Lookup(m.env, target) == NONE then m.(ok := false)
        else m.(srv := m.srv.(configTarget := m.env[target], snmp := false))
      case Request(call, query, body, captures, _) => ExecCall(m, call, query, body, captures)
      case AddS3(_, _, _, _) => m
  }

  ghost function ExecCall(m: Machine, call: Endpoint, query: seq<Text>, body: seq<Item>, captures: seq<Var>): Machine {
    match call
    case FindManagedServer =>
      if query != [] && query[0].Given? && captures != [] then m.(env := m.env[captures[0] := HostIdOf(m.srv, query[0].s)]) else m
    case FindDefaultRepository =>
      if captures != [] then m.(env := m.env[captures[0] := RepoIdOf(m.srv, DEFAULT_REPOSITORY)]) else m
    case DeleteRepository =>
      if query != [] && query[0].Ref? then
        var id := Lookup(m.env, query[0].v);
        if id in m.srv.repos && Wire.BackupFree(m.srv, id) then m.(srv := m.srv.(repos := m.srv.repos - {id})) else m.(ok := false)
      else m
    case PostCredentials => PostLogin(m, body, captures)
    case PostCertificate => FetchCertificate(m, body, captures)
    case PostCluster => if ClusterAccepted(m, body) then m.(srv := m.srv.(cluster := ClusterOf(body))) else m.(ok := false)
    case _ => m
  }

  function PostLogin(m: Machine, body: seq<Item>, captures: seq<Var>): Machine {
    var username, password := At(body, AccountName), At(body, AccountPassword);
    if username.Some? && password.Some? && captures != []
    then m.(logins := m.logins[captures[0] := Login(username.value, password.value)]) else m.(ok := false)
  }

  /** A certificate is fetched from a server with a login posted before. */
  function FetchCertificate(m: Machine, body: seq<Item>, captures: seq<Var>): Machine {
    var server, login := At(body, ServerName), RefAt(body, CredentialsId);
    if server.Some? && login.Some? && login.value in m.logins && captures != []
    then m.(certificates := m.certificates[captures[0] := Certificate(server.value, m.logins[login.value])]) else m.(ok := false)
  }

  /** The server takes a cluster within one subnet only with its endpoint, with a login posted before and with
      the secondary's own certificate, fetched with that login. */
  predicate ClusterAccepted(m: Machine, body: seq<Item>) {
    var login, certificate := RefAt(body, SecondaryCredentials), RefAt(body, CertificateText);
    && GivenAt(body, PrimaryIp) && GivenAt(body, SecondaryIp) && GivenAt(body, ClusterName) && GivenAt(body, ClusterEndpoint)
    && login.Some? && login.value in m.logins && certificate.Some? && certificate.value in m.certificates
    && m.certificates[certificate.value] == Certificate(At(body, SecondaryIp).value, m.logins[login.value])
  }

  /** The cluster: primary, secondary, name, endpoint. */
  function ClusterOf(body: seq<Item>): seq<string>
    requires GivenAt(body, PrimaryIp) && GivenAt(body, SecondaryIp) && GivenAt(body, ClusterName) && GivenAt(body, ClusterEndpoint)
  {
    [At(body, PrimaryIp).value.s, At(body, SecondaryIp).value.s, At(body, ClusterName).value.s, At(body, ClusterEndpoint).value.s]
  }

  ghost function Exec(m: Machine, steps: seq<Planner.Step>, ids: nat -> Id): Machine
    decreases |steps|
  {
    if steps == [] then m else Exec(ExecStep(m, steps[0], ids), steps[1..], ids)
  }

  lemma {:induction false} ExecConcat(m: Machine, a: seq<Planner.Step>, b: seq<Planner.Step>, ids: nat -> Id)
    ensures Exec(m, a + b, ids) == Exec(Exec(m, a, ids), b, ids)
    decreases |a|
  {
    if a == [] {
      assert a + b == b;
    } else {
      assert (a + b)[1..] == a[1..] + b;
      ExecConcat(ExecStep(m, a[0], ids), a[1..], b, ids);
    }
  }

  lemma ExecOne(m: Machine, step: Planner.Step, ids: nat -> Id)
    ensures Exec(m, [step], ids) == ExecStep(m, step, ids)
  {
    assert [step][1..] == [];
    assert Exec(ExecStep(m, step, ids), [], ids) == ExecStep(m, step, ids);
  }

  // ---- the wiring the plan stands for ----

  /** The configuration under which the live wiring does what the plan's node steps do. */
  function ConfigOf(s: Spec, mount: Id): Config {
    Config(NamedAll(Vias(s.nodes)), RepoPath(s), RepoDays(s), mount)
  }

  /** No proxy node has a proxy yet: the script does not look for one before adding. */
  ghost predicate NoProxiesYet(cfg: Config, srv: Server, from: nat) {
    forall w, h | from <= w < |cfg.vias| && DutyAt(cfg, w).VmwareProxy? && HostOf(cfg, srv, w, h) :: !ProxyOn(srv, h)
  }

  /** The first n nodes are wired. */
  ghost predicate WiredUpTo(cfg: Config, srv: Server, n: nat) {
    n <= |cfg.vias| && forall w | 0 <= w < n && !DutyAt(cfg, w).HostOnly? :: NodeWired(cfg, srv, w)
  }

  /** The variables of the first n hardened repositories hold them. */
  ghost predicate ReposKnown(cfg: Config, srv: Server, env: map<Var, Id>, n: nat) {
    n <= |cfg.vias| && forall w: nat | w < n && DutyAt(cfg, w).HardenedRepo? :: RepoId(w) in env && NamedRepo(cfg, srv, w, env[RepoId(w)])
  }

  /** What holds once the steps of the first n nodes have run. */
  ghost predicate Progress(cfg: Config, srv0: Server, ids: nat -> Id, mount: Option<Var>, n: nat, m: Machine) {
    && m.ok && Supplies(ids, m) && ServerInv(cfg, srv0, m.srv)
    && LookupOption(m.env, mount) == cfg.mount
    && WiredUpTo(cfg, m.srv, n) && ReposKnown(cfg, m.srv, m.env, n)
    && NoProxiesYet(cfg, m.srv, n)
    && BystandersAbsent(cfg, srv0, m.srv)
  }

  /** Nodes that are neither hardened repository nor proxy are not registered by the plan. */
  ghost predicate BystandersAbsent(cfg: Config, srv0: Server, srv: Server) {
    forall w | 0 <= w < |cfg.vias| && DutyAt(cfg, w).HostOnly? && !HostNamed(srv0, cfg.vias[w].ip) :: !HostNamed(srv, cfg.vias[w].ip)
  }

  lemma LookupFindsHost(srv: Server, name: string)
    ensures HostNamed(srv, name) ==> HostIdOf(srv, name) in srv.hosts && srv.hosts[HostIdOf(srv, name)] == name
  {
  }

  lemma LookupFindsRepo(srv: Server, name: string)
    ensures RepoNamed(srv, name) ==> RepoIdOf(srv, name) in srv.repos && srv.repos[RepoIdOf(srv, name)].name == name
  {
  }

  /** A creation the topology calls for keeps everything established for other nodes. */
  lemma CreateKeeps(cfg: Config, srv0: Server, ids: nat -> Id, m: Machine, w: nat, what: Creation)
    requires GoodStart(cfg, srv0) && ServerInv(cfg, srv0, m.srv) && Supplies(ids, m)
    requires w < |cfg.vias| && Creatable(cfg, m.srv, w, what)
    ensures var t := Create(m, what, ids);
      && ServerInv(cfg, srv0, t.srv) && Supplies(ids, t) && Extends(m.srv, t.srv)
      && (forall v | 0 <= v < |cfg.vias| && NodeWired(cfg, m.srv, v) :: NodeWired(cfg, t.srv, v))
  {
    var id := ids(m.next);
    LandKeepsServer(cfg, srv0, m.srv, w, what, id);
    LandGrows(cfg, m.srv, w, what, id);
    forall v | 0 <= v < |cfg.vias| && NodeWired(cfg, m.srv, v) ensures NodeWired(cfg, Created(m.srv, what, id), v) {
      WiredStays(cfg, m.srv, v, what, id);
    }
  }

  /** After registering, the variable holds the node's host. */
  lemma HostRegistered(cfg: Config, srv0: Server, ids: nat -> Id, mount: Option<Var>, m: Machine, n: nat)
    requires GoodStart(cfg, srv0) && Progress(cfg, srv0, ids, mount, n, m) && n < |cfg.vias|
    requires (mount.None? || mount.value == HrMount) && !DutyAt(cfg, n).HostOnly?
    ensures var t := RegisterHost(m, cfg.vias[n].ip, HostId(n), ids);
      && Progress(cfg, srv0, ids, mount, n, t) && HostId(n) in t.env && HostOf(cfg, t.srv, n, t.env[HostId(n)])
      && t.srv.repos == m.srv.repos && t.srv.proxies == m.srv.proxies
  {
    var name := cfg.vias[n].ip;
    var t := RegisterHost(m, name, HostId(n), ids);
    if !HostNamed(m.srv, name) {
      CreateKeeps(cfg, srv0, ids, m, n, NewHost(name));
      assert ids(m.next) in t.srv.hosts && t.srv.hosts[ids(m.next)] == name;
      NewHostHasNoProxy(cfg, m, n, ids);
      BystandersStayAbsent(cfg, srv0, m, n, ids);
    }
    LookupFindsHost(t.srv, name);
    assert forall w: nat | w < n :: RepoId(w) in m.env ==> t.env[RepoId(w)] == m.env[RepoId(w)];
  }

  lemma NewHostHasNoProxy(cfg: Config, m: Machine, n: nat, ids: nat -> Id)
    requires WellFormed(m.srv) && Supplies(ids, m) && n < |cfg.vias| && NoProxiesYet(cfg, m.srv, n)
    ensures NoProxiesYet(cfg, Create(m, NewHost(cfg.vias[n].ip), ids).srv, n)
  {
    var t := Create(m, NewHost(cfg.vias[n].ip), ids);
    forall w, h | n <= w < |cfg.vias| && DutyAt(cfg, w).VmwareProxy? && HostOf(cfg, t.srv, w, h) ensures !ProxyOn(t.srv, h) {
      if h != ids(m.next) {
        assert HostOf(cfg, m.srv, w, h);
        assert ProxyOn(t.srv, h) == ProxyOn(m.srv, h);
      }
    }
  }

  lemma BystandersStayAbsent(cfg: Config, srv0: Server, m: Machine, n: nat, ids: nat -> Id)
    requires GoodConfig(cfg) && n < |cfg.vias| && !DutyAt(cfg, n).HostOnly? && BystandersAbsent(cfg, srv0, m.srv)
    ensures BystandersAbsent(cfg, srv0, Create(m, NewHost(cfg.vias[n].ip), ids).srv)
  {
    var t := Create(m, NewHost(cfg.vias[n].ip), ids);
    forall w | 0 <= w < |cfg.vias| && DutyAt(cfg, w).HostOnly? && !HostNamed(srv0, cfg.vias[w].ip) ensures !HostNamed(t.srv, cfg.vias[w].ip) {
      assert cfg.vias[w].ip != cfg.vias[n].ip && !HostNamed(m.srv, cfg.vias[w].ip);
      assert forall h | h in t.srv.hosts :: h == ids(m.next) || h in m.srv.hosts;
    }
  }

  /** Finding or adding the repository keeps what is established and makes the node wired. */
  lemma RepositoryFound(cfg: Config, srv0: Server, ids: nat -> Id, m: Machine, n: nat, host: Id)
    requires GoodStart(cfg, srv0) && ServerInv(cfg, srv0, m.srv) && Supplies(ids, m)
    requires n < |cfg.vias| && DutyAt(cfg, n).HardenedRepo? && HostOf(cfg, m.srv, n, host)
    ensures var t := AddRepository(m, RepoFor(cfg, n, host), RepoId(n), ids);
      && ServerInv(cfg, srv0, t.srv) && Supplies(ids, t) && NamedRepo(cfg, t.srv, n, t.env[RepoId(n)]) && NodeWired(cfg, t.srv, n)
      && t.srv.hosts == m.srv.hosts && t.srv.proxies == m.srv.proxies && Extends(m.srv, t.srv)
      && (forall v | 0 <= v < |cfg.vias| && NodeWired(cfg, m.srv, v) :: NodeWired(cfg, t.srv, v))
  {
    var repo := RepoFor(cfg, n, host);
    var t := AddRepository(m, repo, RepoId(n), ids);
    if !RepoNamed(m.srv, repo.name) {
      assert CreatableTarget(cfg, m.srv, n, NewRepo(repo)) by {
        assert HostOf(cfg, m.srv, n, host) && NewRepo(repo) == CreationFor(cfg, n, host) && !Equipped(cfg, m.srv, n, host);
      }
      CreateKeeps(cfg, srv0, ids, m, n, NewRepo(repo));
      assert ids(m.next) in t.srv.repos && t.srv.repos[ids(m.next)].name == repo.name;
    }
    LookupFindsRepo(t.srv, repo.name);
    assert HostOf(cfg, t.srv, n, host) && Equipped(cfg, t.srv, n, host);
  }

  lemma OneMoreWired(cfg: Config, a: Server, b: Server, n: nat)
    requires WiredUpTo(cfg, a, n) && n < |cfg.vias| && NodeWired(cfg, b, n)
    requires forall v | 0 <= v < |cfg.vias| && NodeWired(cfg, a, v) :: NodeWired(cfg, b, v)
    ensures WiredUpTo(cfg, b, n + 1)
  {
  }

  lemma OneMoreKnown(cfg: Config, a: Server, b: Server, env: map<Var, Id>, n: nat, id: Id)
    requires ReposKnown(cfg, a, env, n) && n < |cfg.vias| && NamedRepo(cfg, b, n, id)
    requires forall r | r in a.repos :: r in b.repos && b.repos[r] == a.repos[r]
    ensures ReposKnown(cfg, b, env[RepoId(n) := id], n + 1)
  {
  }

  lemma NoneMoreKnown(cfg: Config, a: Server, b: Server, env: map<Var, Id>, n: nat)
    requires ReposKnown(cfg, a, env, n) && n < |cfg.vias| && !DutyAt(cfg, n).HardenedRepo? && b.repos == a.repos
    ensures ReposKnown(cfg, b, env, n + 1)
  {
  }

  lemma BystandersSameHosts(cfg: Config, srv0: Server, a: Server, b: Server)
    requires BystandersAbsent(cfg, srv0, a) && b.hosts == a.hosts
    ensures BystandersAbsent(cfg, srv0, b)
  {
    assert forall name :: HostNamed(b, name) == HostNamed(a, name);
  }

  lemma ProxylessSame(cfg: Config, a: Server, b: Server, n: nat)
    requires NoProxiesYet(cfg, a, n) && b.hosts == a.hosts && b.proxies == a.proxies
    ensures NoProxiesYet(cfg, b, n + 1)
  {
    assert forall w, h | 0 <= w < |cfg.vias| :: HostOf(cfg, b, w, h) == HostOf(cfg, a, w, h);
    assert forall h :: ProxyOn(b, h) == ProxyOn(a, h);
  }

  /** A hardened-repository step. */
  lemma RepositoryAdded(cfg: Config, srv0: Server, ids: nat -> Id, mount: Option<Var>, m: Machine, n: nat)
    requires GoodStart(cfg, srv0) && Progress(cfg, srv0, ids, mount, n, m) && n < |cfg.vias| && DutyAt(cfg, n).HardenedRepo?
    requires mount.None? || mount.value == HrMount
    requires HostId(n) in m.env && HostOf(cfg, m.srv, n, m.env[HostId(n)])
    ensures Progress(cfg, srv0, ids, mount, n + 1, AddRepository(m, RepoFor(cfg, n, m.env[HostId(n)]), RepoId(n), ids))
  {
    var host := m.env[HostId(n)];
    var t := AddRepository(m, RepoFor(cfg, n, host), RepoId(n), ids);
    RepositoryFound(cfg, srv0, ids, m, n, host);
    OneMoreWired(cfg, m.srv, t.srv, n);
    OneMoreKnown(cfg, m.srv, t.srv, m.env, n, t.env[RepoId(n)]);
    BystandersSameHosts(cfg, srv0, m.srv, t.srv);
    ProxylessSame(cfg, m.srv, t.srv, n);
  }

  /** Adding the proxy keeps what is established and makes the node wired. */
  lemma ProxyCreated(cfg: Config, srv0: Server, ids: nat -> Id, m: Machine, n: nat, host: Id)
    requires GoodStart(cfg, srv0) && ServerInv(cfg, srv0, m.srv) && Supplies(ids, m)
    requires n < |cfg.vias| && DutyAt(cfg, n).VmwareProxy? && HostOf(cfg, m.srv, n, host) && !ProxyOn(m.srv, host)
    ensures var t := AddProxy(m, host, ids);
      && ServerInv(cfg, srv0, t.srv) && Supplies(ids, t) && NodeWired(cfg, t.srv, n)
      && t.srv.hosts == m.srv.hosts && t.srv.repos == m.srv.repos
      && (forall v | 0 <= v < |cfg.vias| && NodeWired(cfg, m.srv, v) :: NodeWired(cfg, t.srv, v))
  {
    var t := AddProxy(m, host, ids);
    assert CreatableTarget(cfg, m.srv, n, NewProxy(host)) by {
      assert HostOf(cfg, m.srv, n, host) && NewProxy(host) == CreationFor(cfg, n, host) && !Equipped(cfg, m.srv, n, host);
    }
    CreateKeeps(cfg, srv0, ids, m, n, NewProxy(host));
    assert ids(m.next) in t.srv.proxies && t.srv.proxies[ids(m.next)] == host;
    assert HostOf(cfg, t.srv, n, host) && Equipped(cfg, t.srv, n, host);
  }

  lemma OthersStillProxyless(cfg: Config, ids: nat -> Id, m: Machine, n: nat, host: Id)
    requires GoodConfig(cfg) && n < |cfg.vias| && HostOf(cfg, m.srv, n, host) && NoProxiesYet(cfg, m.srv, n)
    ensures NoProxiesYet(cfg, AddProxy(m, host, ids).srv, n + 1)
  {
    var t := AddProxy(m, host, ids);
    forall w, h | n + 1 <= w < |cfg.vias| && DutyAt(cfg, w).VmwareProxy? && HostOf(cfg, t.srv, w, h) ensures !ProxyOn(t.srv, h) {
      assert HostOf(cfg, m.srv, w, h) && cfg.vias[w].ip != cfg.vias[n].ip;
      assert h != host && !ProxyOn(m.srv, h);
      assert forall p | p in t.srv.proxies :: p == ids(m.next) || p in m.srv.proxies;
    }
  }

  /** A proxy step. */
  lemma ProxyAdded(cfg: Config, srv0: Server, ids: nat -> Id, mount: Option<Var>, m: Machine, n: nat)
    requires GoodStart(cfg, srv0) && Progress(cfg, srv0, ids, mount, n, m) && n < |cfg.vias| && DutyAt(cfg, n).VmwareProxy?
    requires HostId(n) in m.env && HostOf(cfg, m.srv, n, m.env[HostId(n)])
    ensures Progress(cfg, srv0, ids, mount, n + 1, AddProxy(m, m.env[HostId(n)], ids))
  {
    var host := m.env[HostId(n)];
    var t := AddProxy(m, host, ids);
    ProxyCreated(cfg, srv0, ids, m, n, host);
    OthersStillProxyless(cfg, ids, m, n, host);
    OneMoreWired(cfg, m.srv, t.srv, n);
    NoneMoreKnown(cfg, m.srv, t.srv, m.env, n);
    BystandersSameHosts(cfg, srv0, m.srv, t.srv);
  }

  /** A hardened repository's step is its helper calls with the wiring's own values. */
  lemma HrStepRuns(s: Spec, cfg: Config, ids: nat -> Id, mount: Option<Var>, m: Machine, n: nat)
    requires cfg == ConfigOf(s, LookupOption(m.env, mount)) && (mount.None? || mount.value == HrMount)
    requires m.ok && n < |cfg.vias| && DutyAt(cfg, n).HardenedRepo?
    ensures var a := RegisterHost(m, cfg.vias[n].ip, HostId(n), ids);
      && HostId(n) in a.env
      && Exec(m, ViaStep(s, Vias(s.nodes), n, mount), ids) == AddRepository(a, RepoFor(cfg, n, a.env[HostId(n)]), RepoId(n), ids)
  {
    var steps := ViaStep(s, Vias(s.nodes), n, mount);
    assert cfg.vias[n] == Named(Vias(s.nodes)[n]);
    assert steps == [steps[0]];
    ExecOne(m, steps[0], ids);
  }

  lemma ProxyStepRuns(s: Spec, cfg: Config, ids: nat -> Id, mount: Option<Var>, m: Machine, n: nat)
    requires cfg == ConfigOf(s, cfg.mount) && m.ok && n < |cfg.vias| && DutyAt(cfg, n).VmwareProxy?
    ensures var a := RegisterHost(m, cfg.vias[n].ip, HostId(n), ids);
      && HostId(n) in a.env
      && Exec(m, ViaStep(s, Vias(s.nodes), n, mount), ids) == AddProxy(a, a.env[HostId(n)], ids)
  {
    var steps := ViaStep(s, Vias(s.nodes), n, mount);
    assert cfg.vias[n] == Named(Vias(s.nodes)[n]);
    assert steps == [steps[0]];
    ExecOne(m, steps[0], ids);
  }

  /** A node that is neither leaves the machine alone. */
  lemma NoStepRuns(s: Spec, cfg: Config, srv0: Server, ids: nat -> Id, mount: Option<Var>, m: Machine, n: nat)
    requires cfg == ConfigOf(s, cfg.mount) && Progress(cfg, srv0, ids, mount, n, m) && n < |cfg.vias| && DutyAt(cfg, n).HostOnly?
    ensures Exec(m, ViaStep(s, Vias(s.nodes), n, mount), ids) == m && Progress(cfg, srv0, ids, mount, n + 1, m)
  {
    assert cfg.vias[n] == Named(Vias(s.nodes)[n]);
    assert ViaStep(s, Vias(s.nodes), n, mount) == [];
  }

  /** One node's part of the plan. */
  lemma NodeExecuted(s: Spec, cfg: Config, srv0: Server, ids: nat -> Id, mount: Option<Var>, m: Machine, n: nat)
    requires cfg == ConfigOf(s, cfg.mount) && (mount.None? || mount.value == HrMount)
    requires GoodStart(cfg, srv0) && Progress(cfg, srv0, ids, mount, n, m) && n < |cfg.vias|
    ensures Progress(cfg, srv0, ids, mount, n + 1, Exec(m, ViaStep(s, Vias(s.nodes), n, mount), ids))
  {
    var a := RegisterHost(m, cfg.vias[n].ip, HostId(n), ids);
    match DutyAt(cfg, n)
    case HardenedRepo =>
      HrStepRuns(s, cfg, ids, mount, m, n);
      HostRegistered(cfg, srv0, ids, mount, m, n);
      RepositoryAdded(cfg, srv0, ids, mount, a, n);
    case VmwareProxy =>
      ProxyStepRuns(s, cfg, ids, mount, m, n);
      HostRegistered(cfg, srv0, ids, mount, m, n);
      ProxyAdded(cfg, srv0, ids, mount, a, n);
    case HostOnly =>
      NoStepRuns(s, cfg, srv0, ids, mount, m, n);
  }
}
