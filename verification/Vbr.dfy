/** The backup server as the wiring sees it through its REST calls. */
module Vbr {

  /** Server-side identifiers; "" is the client's "not found". */
  type Id = string

  const NONE: Id := ""

  /** A repository record. The default repository and the hardened ones share this shape. */
  datatype Repo = Repo(name: string, host: Id, path: string, days: nat, mount: Id)

  /** Managed servers by name, repositories, proxies by host, backups by repository, the repository the
      configuration backup goes to and whether it notifies over SNMP, the cluster members if a cluster exists
      and whether a license is valid. */
  datatype Server = Server(
    hosts: map<Id, string>,
    repos: map<Id, Repo>,
    proxies: map<Id, Id>,
    backups: map<Id, Id>,
    configTarget: Id,
    snmp: bool,
    cluster: seq<string>,
    licensed: bool)

  // ---- lookups by exact match ----

  predicate HostNamed(srv: Server, name: string) {
    exists h :: h in srv.hosts && srv.hosts[h] == name
  }

  predicate RepoNamed(srv: Server, name: string) {
    exists r :: r in srv.repos && srv.repos[r].name == name
  }

  predicate ProxyOn(srv: Server, host: Id) {
    exists p :: p in srv.proxies && srv.proxies[p] == host
  }

  /** An answer a lookup may give: some entry with this name, or NONE when there is none. */
  predicate FindsHost(srv: Server, name: string, id: Id) {
    if id == NONE then !HostNamed(srv, name) else id in srv.hosts && srv.hosts[id] == name
  }

  predicate FindsRepo(srv: Server, name: string, id: Id) {
    if id == NONE then !RepoNamed(srv, name) else id in srv.repos && srv.repos[id].name == name
  }

  predicate FindsProxy(srv: Server, host: Id, id: Id) {
    if id == NONE then !ProxyOn(srv, host) else id in srv.proxies && srv.proxies[id] == host
  }

  // ---- what an accepted creation does ----

  datatype Creation = NewHost(name: string) | NewRepo(repo: Repo) | NewProxy(host: Id)

  predicate Fresh(srv: Server, id: Id) {
    id != NONE && id !in srv.hosts && id !in srv.repos && id !in srv.proxies
  }

  function Created(srv: Server, c: Creation, id: Id): Server {
    match c
    case NewHost(name) => srv.(hosts := srv.hosts[id := name])
    case NewRepo(repo) => srv.(repos := srv.repos[id := repo])
    case NewProxy(host) => srv.(proxies := srv.proxies[id := host])
  }

  /** References resolve and no entry has the empty identifier. */
  ghost predicate WellFormed(srv: Server) {
    && NONE !in srv.hosts && NONE !in srv.repos && NONE !in srv.proxies
    && (forall r | r in srv.repos :: srv.repos[r].host in srv.hosts)
    && (forall p | p in srv.proxies :: srv.proxies[p] in srv.hosts)
  }

  /** Every entry of srv0 is still there, unchanged, and nothing but hosts, repositories and proxies was
      added. */
  ghost predicate Extends(srv0: Server, srv: Server) {
    && (forall h | h in srv0.hosts :: h in srv.hosts && srv.hosts[h] == srv0.hosts[h])
    && (forall r | r in srv0.repos :: r in srv.repos && srv.repos[r] == srv0.repos[r])
    && (forall p | p in srv0.proxies :: p in srv.proxies && srv.proxies[p] == srv0.proxies[p])
    && srv == srv0.(hosts := srv.hosts, repos := srv.repos, proxies := srv.proxies)
  }

  // ---- the server's content without identifiers ----

  datatype RepoView = RepoView(name: string, host: string, path: string, days: nat, mount: Id)

  ghost function HostsView(srv: Server): set<string> {
    set h | h in srv.hosts :: srv.hosts[h]
  }

  ghost function ViewRepo(srv: Server, repo: Repo): RepoView
    requires repo.host in srv.hosts
  {
    RepoView(repo.name, srv.hosts[repo.host], repo.path, repo.days, repo.mount)
  }

  ghost function ReposView(srv: Server): set<RepoView>
    requires WellFormed(srv)
  {
    set r | r in srv.repos :: ViewRepo(srv, srv.repos[r])
  }

  ghost function ProxiesView(srv: Server): set<string>
    requires WellFormed(srv)
  {
    set p | p in srv.proxies :: srv.hosts[srv.proxies[p]]
  }

  // ---- lookups as functions ----

  /** The host a lookup by name answers with. */
  ghost function HostIdOf(srv: Server, name: string): Id {
    if HostNamed(srv, name) then var h :| h in srv.hosts && srv.hosts[h] == name; h else NONE
  }

  ghost function RepoIdOf(srv: Server, name: string): Id {
    if RepoNamed(srv, name) then var r :| r in srv.repos && srv.repos[r].name == name; r else NONE
  }
}
