/** The wiring from end to end: license, mount server, fan-out, configuration backup, default repository,
    cluster, advanced settings. A client records every state-changing call with the server it found; the replies come from an
    oracle, so each contract holds whichever calls fail and whether or not a failed call took effect. */
module Wire {
  import opened Topology
  import opened Vbr
  import opened Naming
  import opened FanOut
  import opened FanOutInvariant
  import opened FanOutTheorems
  import opened FanOutSteps
  import opened FanOutProgress
  import opened Bodies

  /** How the server answers a request that changes it. */
  datatype Reply = Refused | Done | EffectButError

  datatype Op =
    | RunFanOut                          // the fan-out, as one entry
    | PutConfigBackup(repo: Id)
    | DeleteBackup(backup: Id)
    | RemoveRepository(repo: Id)
    | Posts(post: Post)                  // a call with a body

  datatype Call = Call(op: Op, at: Server)

  function OpsOf(calls: seq<Call>): seq<Op> { seq(|calls|, i requires 0 <= i < |calls| => calls[i].op) }

  function PostOps(posts: seq<Post>): seq<Op> { seq(|posts|, i requires 0 <= i < |posts| => Posts(posts[i])) }

  /** The wiring's own settings. An empty target means "wire into the deployed VSA", an empty license that none
      is to be installed, no object store that none is to be added. */
  datatype Settings = Settings(
    target: string, username: string, password: string, license: string, path: string, days: int,
    clusterDns: string, clusterEndpoint: string,
    exporter: bool, exporterTls: bool, exporterUser: string, exporterPassword: string,
    syslogServer: string, syslogPort: int, syslogProtocol: string, stores: seq<ObjectStore>)

  function UserOf(s: Settings): string { if s.username == "" then "veeamadmin" else s.username }

  function PathOf(s: Settings): string { if s.path == "" then "/var/lib/veeam/backups" else s.path }

  function DaysOf(s: Settings): nat { if s.days <= 0 then 7 else s.days }

  predicate HasAdvanced(s: Settings) { s.exporter || s.syslogServer != "" || s.stores != [] }

  /** What the server and the lookups answered along the way. */
  datatype Answers = Answers(credential: string, certificate: string, storeCredential: string, storeMount: Id)

  function HaOps(s: Settings, p: Node, q: Node, got: Answers): seq<Op> {
    PostOps(HaPosts(UserOf(s), s.password, p, q, s.clusterDns, s.clusterEndpoint, got.credential, got.certificate))
  }

  /** The last calls made were these. */
  predicate EndsWith(calls: seq<Call>, ops: seq<Op>) { |ops| <= |calls| && OpsOf(calls)[|calls| - |ops|..] == ops }

  /** The members a cluster shows: primary, secondary, name, endpoint. */
  function ClusterOf(s: Settings, p: Node, q: Node): seq<string> {
    [p.ip, q.ip, if s.clusterDns == "" then p.name else s.clusterDns, s.clusterEndpoint]
  }

  /** Calls a run against an existing server must never make. */
  predicate TouchesServerRole(op: Op) {
    || op.PutConfigBackup? || op.DeleteBackup? || op.RemoveRepository?
    || (op.Posts? && (op.post.call.InstallLicense? || op.post.call.PostCredentials? || op.post.call.PostCluster?))
  }

  ghost predicate BackupFree(srv: Server, repo: Id) {
    forall b | b in srv.backups :: srv.backups[b] != repo
  }

  /** The server a cluster may be created on: all nodes wired and, when there is a hardened repository,
      configuration backup on the first one and the default repository gone. */
  ghost predicate ClusterReady(cfg: Config, srv: Server) {
    && (forall w | 0 <= w < |cfg.vias| :: NodeWired(cfg, srv, w))
    && (HasHR(cfg.vias) ==>
          && (exists i: nat :: IsFirstHR(cfg.vias, i) && NamedRepo(cfg, srv, i, srv.configTarget))
          && !RepoNamed(srv, DEFAULT_REPOSITORY))
  }

  /** The repository about to be deleted is the default one, holds no backup, and is not where the
      configuration backup goes. */
  ghost predicate DeletionSafe(srv: Server, repo: Id) {
    && repo in srv.repos && srv.repos[repo].name == DEFAULT_REPOSITORY
    && BackupFree(srv, repo)
    && srv.configTarget != repo
  }

  ghost predicate CallSafe(cfg: Config, c: Call) {
    match c.op
    case Posts(post) => post.call.PostCluster? ==> ClusterReady(cfg, c.at)
    case RemoveRepository(repo) => HasHR(cfg.vias) && DeletionSafe(c.at, repo)
    case PutConfigBackup(repo) => HasHR(cfg.vias) && ReturnsFirstRepo(cfg, c.at, repo) && (forall w | 0 <= w < |cfg.vias| :: NodeWired(cfg, c.at, w))
    case _ => true
  }

  ghost predicate AllSafe(cfg: Config, calls: seq<Call>) {
    forall k | 0 <= k < |calls| :: CallSafe(cfg, calls[k])
  }

  /** One default repository at most, as on any server. */
  ghost predicate OneDefault(srv: Server) {
    forall r, q | r in srv.repos && q in srv.repos && srv.repos[r].name == srv.repos[q].name == DEFAULT_REPOSITORY :: r == q
  }

  /** The server's own state, apart from what the fan-out and the default repository's removal touch. */
  ghost predicate SameRole(a: Server, b: Server) {
    a.licensed == b.licensed && a.configTarget == b.configTarget && a.snmp == b.snmp && a.cluster == b.cluster && a.backups == b.backups
  }

  /** How many lookups the candidates cost: empty ones cost none. */
  function Lookups(candidates: seq<string>): nat {
    if candidates == [] then 0 else (if candidates[0] == "" then 0 else 1) + Lookups(candidates[1..])
  }

  lemma {:induction false} LookupsSnoc(candidates: seq<string>, c: string)
    ensures Lookups(candidates + [c]) == Lookups(candidates) + (if c == "" then 0 else 1)
  {
    if candidates == [] {
      assert candidates + [c] == [c];
    } else {
      assert (candidates + [c])[1..] == candidates[1..] + [c];
      LookupsSnoc(candidates[1..], c);
    }
  }

  lemma {:induction false} LookupsAreFew(candidates: seq<string>)
    ensures Lookups(candidates) <= |candidates|
  {
    if candidates != [] {
      LookupsAreFew(candidates[1..]);
    }
  }

  /** The search's result when every lookup is answered: the host of the first candidate that has one. */
  ghost predicate ResolvesTo(srv: Server, candidates: seq<string>, id: Id) {
    if id == NONE then forall k: nat | k < |candidates| :: candidates[k] == "" || !HostNamed(srv, candidates[k])
    else exists k: nat :: k < |candidates| && candidates[k] != "" && FindsHost(srv, candidates[k], id)
           && forall j: nat | j < k :: candidates[j] == "" || !HostNamed(srv, candidates[j])
  }

  /** The candidate's lookup was answered; the search started at request number `from`. */
  ghost predicate Answered(replies: nat -> Reply, cancelled: bool, candidates: seq<string>, k: nat, from: nat)
    requires k < |candidates|
  {
    !cancelled && replies(from + Lookups(candidates[..k])).Done?
  }

  /** A candidate the mount server's search goes past: empty, unknown, or its lookup failed. */
  ghost predicate PassedOver(srv: Server, replies: nat -> Reply, cancelled: bool, candidates: seq<string>, k: nat, from: nat)
    requires k < |candidates|
  {
    candidates[k] == "" || !HostNamed(srv, candidates[k]) || !Answered(replies, cancelled, candidates, k, from)
  }

  /** What the search finds: the host of the first candidate that resolves, or none when all are passed over. */
  ghost predicate SearchFinds(srv: Server, replies: nat -> Reply, cancelled: bool, candidates: seq<string>, from: nat, id: Id) {
    && (id == NONE ==> forall k: nat | k < |candidates| :: PassedOver(srv, replies, cancelled, candidates, k, from))
    && (id != NONE ==> exists k: nat :: FoundAt(srv, replies, cancelled, candidates, from, id, k))
  }

  ghost predicate FoundAt(srv: Server, replies: nat -> Reply, cancelled: bool, candidates: seq<string>, from: nat, id: Id, k: nat) {
    && k < |candidates| && candidates[k] != "" && FindsHost(srv, candidates[k], id) && Answered(replies, cancelled, candidates, k, from)
    && forall j: nat | j < k :: PassedOver(srv, replies, cancelled, candidates, j, from)
  }

  /** When every lookup is answered, that is the host of the first candidate that has one. */
  lemma AnsweredResolves(srv: Server, replies: nat -> Reply, candidates: seq<string>, from: nat, id: Id)
    requires forall t | from <= t < from + |candidates| :: replies(t).Done?
    requires SearchFinds(srv, replies, false, candidates, from, id)
    ensures ResolvesTo(srv, candidates, id)
  {
    var hit := |candidates|;
    if id != NONE {
      hit :| 0 <= hit && FoundAt(srv, replies, false, candidates, from, id, hit);
    }
    forall j: nat | j < hit ensures candidates[j] == "" || !HostNamed(srv, candidates[j]) {
      LookupsAreFew(candidates[..j]);
      assert PassedOver(srv, replies, false, candidates, j, from) && Answered(replies, false, candidates, j, from);
    }
  }

  ghost function WithoutDefault(repos: map<Id, Repo>): map<Id, Repo> {
    map r | r in repos && repos[r].name != DEFAULT_REPOSITORY :: repos[r]
  }

  /** The wired server a, once the configuration backup goes to id, the default repository is gone and the
      cluster stands. */
  ghost predicate Clustered(a: Server, b: Server, id: Id, members: seq<string>) {
    && b.hosts == a.hosts && b.proxies == a.proxies && b.repos == WithoutDefault(a.repos)
    && b.configTarget == id && b.cluster == members
  }

  /** Only backups of this repository have gone. */
  ghost predicate FewerBackups(a: Server, b: Server, repo: Id) {
    && (forall c | c in b.backups :: c in a.backups && b.backups[c] == a.backups[c])
    && (forall c | c in a.backups && c !in b.backups :: a.backups[c] == repo)
  }

  ghost predicate SameBackups(a: Server, b: Server) { a.backups == b.backups }

  /** Only the default repository, with its backups first, and nothing else has gone. */
  ghost predicate OnlyDefaultGone(a: Server, b: Server) {
    && (b.repos == a.repos || b.repos == WithoutDefault(a.repos))
    && (SameBackups(a, b) || (RepoNamed(a, DEFAULT_REPOSITORY) && FewerBackups(a, b, RepoIdOf(a, DEFAULT_REPOSITORY))))
  }

  /** The one default repository is what its lookup answers, and removing it leaves the others. */
  lemma OnlyRepository(srv: Server, id: Id)
    requires OneDefault(srv) && NONE !in srv.repos && FindsRepo(srv, DEFAULT_REPOSITORY, id)
    ensures id == RepoIdOf(srv, DEFAULT_REPOSITORY)
    ensures WithoutDefault(srv.repos) == srv.repos - {id}
  {
    assert forall r | r in srv.repos :: srv.repos[r].name == DEFAULT_REPOSITORY <==> r == id;
  }

  lemma OnlyThese(calls: seq<Call>, from: nat, posts: seq<Post>)
    requires from <= |calls| <= from + |posts|
    requires forall k | from <= k < |calls| :: calls[k].op == Posts(posts[k - from])
    ensures forall k | from <= k < |calls| :: calls[k].op in PostOps(posts)
  {
    assert forall k | from <= k < |calls| :: PostOps(posts)[k - from] == calls[k].op;
  }

  class Client {
    var srv: Server
    var calls: seq<Call>
    var tick: nat
    var cancelled: bool                  // the caller's context is done: no request leaves any more
    const replies: nat -> Reply
    const texts: nat -> string           // the identifier or certificate a reply carries

    /** Some request of this client has failed. */
    ghost predicate Failed()
      reads `tick
    {
      exists t: nat | t < tick :: !replies(t).Done?
    }

    constructor (srv: Server, replies: nat -> Reply, texts: nat -> string)
      ensures this.srv == srv && calls == [] && tick == 0 && this.replies == replies && this.texts == texts && !cancelled
    {
      this.srv, this.calls, this.tick, this.cancelled := srv, [], 0, false;
      this.replies, this.texts := replies, texts;
    }

    /** Sends a state-changing request whose effect turns the server into next. */
    method Send(op: Op, next: Server) returns (ok: bool)
      modifies this`srv, this`calls, this`tick
      ensures cancelled ==> !ok && calls == old(calls) && srv == old(srv)
      ensures !cancelled ==> calls == old(calls) + [Call(op, old(srv))]
      ensures srv == next || (!ok && srv == old(srv))
      ensures tick >= old(tick)
      ensures !ok ==> cancelled || Failed()
    {
      if cancelled { return false; }
      calls := calls + [Call(op, srv)];
      var reply := replies(tick);
      tick := tick + 1;
      if !reply.Refused? {
        srv := next;
      }
      ok := reply.Done?;
    }

    /** Sends a request that leaves the server's inventory alone and whose reply is of use. */
    method Ask(post: Post) returns (ok: bool, text: string)
      modifies this`calls, this`tick
      ensures cancelled ==> !ok && calls == old(calls)
      ensures !cancelled ==> calls == old(calls) + [Call(Posts(post), srv)]
      ensures tick >= old(tick)
      ensures !ok ==> cancelled || Failed()
    {
      if cancelled { return false, ""; }
      calls := calls + [Call(Posts(post), srv)];
      ok, text := replies(tick).Done?, texts(tick);
      tick := tick + 1;
    }

    /** Sends a request that reads; it may fail. */
    method Read() returns (ok: bool)
      modifies this`tick
      ensures ok <==> !cancelled && replies(old(tick)).Done?
      ensures tick == old(tick) + 1
      ensures !ok ==> cancelled || Failed()
    {
      ok := !cancelled && replies(tick).Done?;
      tick := tick + 1;
    }

    method FindRepository(name: string) returns (ok: bool, id: Id)
      requires NONE !in srv.repos
      modifies this`tick
      ensures ok ==> FindsRepo(srv, name, id)
      ensures ok <==> !cancelled && replies(old(tick)).Done?
      ensures tick == old(tick) + 1
      ensures !ok ==> cancelled || Failed()
    {
      ok := Read();
      if RepoNamed(srv, name) {
        id :| id in srv.repos && srv.repos[id].name == name;
      } else {
        id := NONE;
      }
    }

    method FindManagedServer(name: string) returns (ok: bool, id: Id)
      requires NONE !in srv.hosts
      modifies this`tick
      ensures ok ==> FindsHost(srv, name, id)
      ensures ok <==> !cancelled && replies(old(tick)).Done?
      ensures tick == old(tick) + 1
      ensures !ok ==> cancelled || Failed()
    {
      ok := Read();
      if HostNamed(srv, name) {
        id :| id in srv.hosts && srv.hosts[id] == name;
      } else {
        id := NONE;
      }
    }

    /** The first candidate that resolves, or none if all are passed over; failures are only logged. */
    method ResolveMountServer(candidates: seq<string>) returns (id: Id)
      requires NONE !in srv.hosts
      modifies this`tick
      ensures SearchFinds(srv, replies, cancelled, candidates, old(tick), id)
    {
      for k := 0 to |candidates|
        invariant tick == old(tick) + Lookups(candidates[..k])
        invariant forall j: nat | j < k :: PassedOver(srv, replies, cancelled, candidates, j, old(tick))
      {
        assert candidates[..k + 1] == candidates[..k] + [candidates[k]];
        LookupsSnoc(candidates[..k], candidates[k]);
        if candidates[k] == "" { continue; }
        var ok, found := FindManagedServer(candidates[k]);
        if ok && found != NONE {
          assert FoundAt(srv, replies, cancelled, candidates, old(tick), found, k);
          return found;
        }
      }
      return NONE;
    }

    /** Waits for the fan-out: the schedule is any sequence of steps after which every worker has ended. */
    method WireNodes(cfg: Config, schedule: seq<Step>) returns (ok: bool, id: Id)
      requires GoodStart(cfg, srv) && WithoutRestart(schedule) && AllEnded(Run(cfg, Launch(cfg, srv), schedule))
      modifies this`srv, this`calls, this`cancelled
      ensures calls == old(calls) + [Call(RunFanOut, old(srv))]
      ensures WellFormed(srv) && Extends(old(srv), srv) && OnlyWanted(cfg, old(srv), srv)
      ensures srv == Run(cfg, Launch(cfg, old(srv)), schedule).srv
      ensures ok && !cancelled ==> ViewIsExpected(cfg, old(srv), srv) && ExactlyOneEach(cfg, srv) && ReturnsFirstRepo(cfg, srv, id)
      ensures ok && !cancelled ==> AllAddressed(cfg)
      ensures !ok && AllAddressed(cfg) ==> !NothingFails(schedule)
      ensures srv.licensed == old(srv).licensed
    {
      var s := RunSchedule(cfg, srv, schedule);
      StartHasInv(cfg, srv);
      RunKeepsInv(cfg, srv, Launch(cfg, srv), schedule);
      id := PickLowest(s.results);
      ErrorsHaveCauses(cfg, srv, schedule);
      ok := s.firstErr == [];
      if ok && !s.callerDone {
        ResumableConvergence(cfg, srv, schedule);
        ScheduleIndependentResult(cfg, srv, schedule, id);
      }
      calls := calls + [Call(RunFanOut, srv)];
      srv := s.srv;
      cancelled := s.callerDone;
    }

    /** Read-modify-write of the configuration backup: its target changes and its SNMP notifications go off;
        nothing is written when the target is already right. */
    method RedirectConfigBackup(repo: Id) returns (ok: bool)
      modifies this`srv, this`calls, this`tick
      ensures ok ==> !cancelled && srv == (if old(srv).configTarget == repo then old(srv) else old(srv).(configTarget := repo, snmp := false))
      ensures srv == old(srv) || srv == old(srv).(configTarget := repo, snmp := false)
      ensures calls == old(calls) || (!cancelled && calls == old(calls) + [Call(PutConfigBackup(repo), old(srv))])
      ensures old(calls) <= calls
      ensures !ok ==> cancelled || Failed()
    {
      ok := Read();
      if !ok || srv.configTarget == repo { return; }
      ok := Send(PutConfigBackup(repo), srv.(configTarget := repo, snmp := false));
    }

    /** Deletes the backups listed for a repository one by one. */
    method DeleteBackupsOf(ghost cfg: Config, id: Id) returns (ok: bool)
      requires AllSafe(cfg, calls)
      modifies this`srv, this`calls, this`tick
      ensures AllSafe(cfg, calls)
      ensures srv == old(srv).(backups := srv.backups) && FewerBackups(old(srv), srv, id)
      ensures ok ==> BackupFree(srv, id)
      ensures old(calls) <= calls
      ensures !ok ==> cancelled || Failed()
    {
      ok := Read();
      if !ok { return; }
      var left := set b | b in srv.backups && srv.backups[b] == id;
      while left != {}
        invariant AllSafe(cfg, calls) && old(calls) <= calls
        invariant srv == old(srv).(backups := srv.backups) && FewerBackups(old(srv), srv, id)
        invariant left == set b | b in srv.backups && srv.backups[b] == id
        decreases left
      {
        var b :| b in left;
        ok := Send(DeleteBackup(b), srv.(backups := srv.backups - {b}));
        if !ok { return; }
        left := left - {b};
      }
      forall b | b in srv.backups ensures srv.backups[b] != id {
        assert b !in left;
      }
    }

    /** Finds the default repository, deletes the backups on it, then the repository itself. */
    method RemoveDefaultRepository(ghost cfg: Config) returns (ok: bool)
      requires WellFormed(srv) && OneDefault(srv)
      requires HasHR(cfg.vias) && AllSafe(cfg, calls)
      requires srv.configTarget in srv.repos && srv.repos[srv.configTarget].name != DEFAULT_REPOSITORY
      modifies this`srv, this`calls, this`tick
      ensures AllSafe(cfg, calls)
      ensures srv == old(srv).(repos := srv.repos, backups := srv.backups) && OnlyDefaultGone(old(srv), srv)
      ensures ok ==> srv.repos == WithoutDefault(old(srv).repos)
      ensures ok && RepoNamed(old(srv), DEFAULT_REPOSITORY) ==> BackupFree(srv, RepoIdOf(old(srv), DEFAULT_REPOSITORY))
      ensures old(calls) <= calls
      ensures !ok ==> cancelled || Failed()
    {
      ghost var before := srv;
      var id;
      ok, id := FindRepository(DEFAULT_REPOSITORY);
      if !ok { return; }
      OnlyRepository(before, id);
      if id == NONE { return; }
      ok := DeleteBackupsOf(cfg, id);
      if !ok { return; }
      assert DeletionSafe(srv, id);
      ok := Send(RemoveRepository(id), srv.(repos := srv.repos - {id}));
    }

    /** Credentials and certificate for the secondary node, then the cluster itself. */
    method CreateHA(ghost cfg: Config, s: Settings, primary: Node, secondary: Node) returns (ok: bool, ghost got: Answers)
      requires AllSafe(cfg, calls) && (cancelled || ClusterReady(cfg, srv))
      modifies this`srv, this`calls, this`tick
      ensures AllSafe(cfg, calls)
      ensures srv == old(srv).(cluster := srv.cluster)
      ensures ok ==> srv.cluster == ClusterOf(s, primary, secondary) && s.clusterEndpoint != "" && secondary.ip != "" && !cancelled
      ensures ok ==> EndsWith(calls, HaOps(s, primary, secondary, got))
      ensures cancelled ==> calls == old(calls)
      ensures old(calls) <= calls
      ensures !ok ==> cancelled || Failed() || s.clusterEndpoint == "" || secondary.ip == ""
    {
      got := Answers("", "", "", NONE);
      if secondary.ip == "" { return false, got; }
      ok := Read();                                         // the secondary answers on the network
      if !ok { return; }
      var credential, certificate;
      ok, credential := Ask(Post(PostCredentials, CredentialsBody(UserOf(s), s.password, "HA secondary node")));
      if !ok { return; }
      ok, certificate := Ask(Post(PostCertificate, CertificateBody(secondary.ip, credential)));
      if !ok { return; }
      var dns := if s.clusterDns == "" then primary.name else s.clusterDns;
      if s.clusterEndpoint == "" { return false, got; }
      got := Answers(credential, certificate, "", NONE);
      ok := Send(Posts(Post(PostCluster, ClusterBody(primary.ip, secondary.ip, credential, dns, certificate, s.clusterEndpoint))),
                 srv.(cluster := [primary.ip, secondary.ip, dns, s.clusterEndpoint]));
    }

    /** License first, and only when none is valid yet. */
    method InstallLicense(payload: string) returns (ok: bool)
      modifies this`srv, this`calls, this`tick
      ensures calls == old(calls) || calls == old(calls) + [Call(Posts(Post(Endpoint.InstallLicense, LicenseBody(payload))), old(srv))]
      ensures srv == old(srv).(licensed := srv.licensed)
      ensures ok ==> srv.licensed
      ensures ok && !old(srv).licensed ==> calls != old(calls)
      ensures tick >= old(tick)
      ensures !ok ==> cancelled || Failed()
    {
      var known := Read();
      if known && srv.licensed { return true; }
      ok := Send(Posts(Post(Endpoint.InstallLicense, LicenseBody(payload))), srv.(licensed := true));
    }

    /** Posts one after another until one fails. */
    method PostAll(posts: seq<Post>) returns (ok: bool)
      modifies this`calls, this`tick
      ensures old(calls) <= calls && tick >= old(tick)
      ensures forall k | |old(calls)| <= k < |calls| :: calls[k].op in PostOps(posts)
      ensures ok ==> OpsOf(calls) == OpsOf(old(calls)) + PostOps(posts) && (posts != [] ==> !cancelled)
      ensures !ok ==> cancelled || Failed()
    {
      for i := 0 to |posts|
        invariant old(calls) <= calls && tick >= old(tick)
        invariant |calls| == |old(calls)| + i && (i > 0 ==> !cancelled)
        invariant forall k | |old(calls)| <= k < |calls| :: calls[k].op == Posts(posts[k - |old(calls)|])
      {
        var text;
        ok, text := Ask(posts[i]);
        if !ok {
          OnlyThese(calls, |old(calls)|, posts);
          return;
        }
      }
      OnlyThese(calls, |old(calls)|, posts);
      ok := true;
    }
  }

  /** An error of the fan-out has a failing call behind it, or a node without an address. */
  lemma ErrorsHaveCauses(cfg: Config, srv: Server, schedule: seq<Step>)
    requires GoodStart(cfg, srv) && AllEnded(Run(cfg, Launch(cfg, srv), schedule))
    ensures var s := Run(cfg, Launch(cfg, srv), schedule);
      && (AllAddressed(cfg) && NothingFails(schedule) ==> s.firstErr == [])
      && (s.firstErr == [] && !s.callerDone ==> AllAddressed(cfg))
  {
    if AllAddressed(cfg) {
      if NothingFails(schedule) {
        NoErrorWithoutFailure(cfg, srv, schedule);
      }
    } else {
      var w :| 0 <= w < |cfg.vias| && cfg.vias[w].ip == "";
      NoSuccessWithout(cfg, srv, schedule, w);
    }
  }

  /** The scheduler and the network let no call of the fan-out fail. */
  ghost predicate NeverFails(pick: (Config, Server) -> seq<Step>) { forall c: Config, srv: Server :: NothingFails(pick(c, srv)) }

  /** What the wiring of a deployment needs from its settings and nodes. */
  predicate Wireable(s: Settings, vias: seq<Node>, vsas: seq<Node>) {
    && (forall w | 0 <= w < |vias| :: vias[w].ip != "")
    && (|vsas| >= 1 ==> vsas[0].ip != "")
    && (|vsas| >= 2 ==> vsas[1].ip != "" && s.clusterEndpoint != "")
  }

  /** The workers take their steps in the order the scheduler picks. */
  method RunSchedule(cfg: Config, srv: Server, schedule: seq<Step>) returns (s: State)
    ensures s == Run(cfg, Launch(cfg, srv), schedule)
  {
    s := Launch(cfg, srv);
    for k := 0 to |schedule|
      invariant s == Run(cfg, Launch(cfg, srv), schedule[..k])
    {
      RunSnoc(cfg, Launch(cfg, srv), schedule[..k], schedule[k]);
      assert schedule[..k + 1] == schedule[..k] + [schedule[k]];
      s := Next(cfg, s, schedule[k]);
    }
    assert schedule[..|schedule|] == schedule;
  }

  lemma {:induction false} RunSnoc(cfg: Config, s: State, steps: seq<Step>, step: Step)
    ensures Run(cfg, s, steps + [step]) == Next(cfg, Run(cfg, s, steps), step)
    decreases |steps|
  {
    if steps == [] {
      assert [step][1..] == [];
      assert Run(cfg, Next(cfg, s, step), []) == Next(cfg, s, step);
      assert [] + [step] == [step];
    } else {
      assert (steps + [step])[1..] == steps[1..] + [step];
      RunSnoc(cfg, Next(cfg, s, steps[0]), steps[1..], step);
    }
  }

  /** The mount server plays no part in where the wiring may start. */
  lemma AnyMount(cfg: Config, mount: Id, srv: Server)
    requires GoodStart(cfg, srv)
    ensures GoodStart(cfg.(mount := mount), srv)
  {
    var c := cfg.(mount := mount);
    assert forall w, h | 0 <= w < |cfg.vias| :: HostOf(c, srv, w, h) == HostOf(cfg, srv, w, h);
    assert forall w, r | 0 <= w < |cfg.vias| :: NamedRepo(c, srv, w, r) == NamedRepo(cfg, srv, w, r);
  }

  /** Growing by wanted entries adds no second default repository. */
  lemma DefaultStaysSingle(cfg: Config, srv0: Server, srv: Server)
    requires OneDefault(srv0) && Extends(srv0, srv) && OnlyWanted(cfg, srv0, srv)
    ensures OneDefault(srv)
  {
    forall r | r in srv.repos && srv.repos[r].name == DEFAULT_REPOSITORY ensures r in srv0.repos && srv0.repos[r].name == DEFAULT_REPOSITORY {
      if r !in srv0.repos {
        var w: nat :| WantedRepo(cfg, srv0, srv, w, r);
        RepoNameIsNotDefault(cfg.vias, w);
      }
    }
  }

  /** A wired server stays wired when only the default repository, backups and settings change. */
  lemma StillReady(cfg: Config, a: Server, b: Server, id: Id)
    requires HasHR(cfg.vias) && ReturnsFirstRepo(cfg, a, id)
    requires forall w | 0 <= w < |cfg.vias| :: NodeWired(cfg, a, w)
    requires b.hosts == a.hosts && b.proxies == a.proxies && b.configTarget == id
    requires forall r | r in a.repos && a.repos[r].name != DEFAULT_REPOSITORY :: r in b.repos && b.repos[r] == a.repos[r]
    requires !RepoNamed(b, DEFAULT_REPOSITORY)
    ensures ClusterReady(cfg, b)
  {
    forall w | 0 <= w < |cfg.vias| ensures NodeWired(cfg, b, w) {
      WiredWithoutDefault(cfg, a, b, w);
    }
    var i: nat :| IsFirstHR(cfg.vias, i) && NamedRepo(cfg, a, i, id);
    RepoNameIsNotDefault(cfg.vias, i);
    assert NamedRepo(cfg, b, i, id);
  }

  lemma WiredWithoutDefault(cfg: Config, a: Server, b: Server, w: nat)
    requires w < |cfg.vias| && NodeWired(cfg, a, w)
    requires b.hosts == a.hosts && b.proxies == a.proxies
    requires forall r | r in a.repos && a.repos[r].name != DEFAULT_REPOSITORY :: r in b.repos && b.repos[r] == a.repos[r]
    ensures NodeWired(cfg, b, w)
  {
    RepoNameIsNotDefault(cfg.vias, w);
    var h :| HostOf(cfg, a, w, h) && Equipped(cfg, a, w, h);
    assert HostOf(cfg, b, w, h);
    match DutyAt(cfg, w)
    case HardenedRepo =>
      var r :| r in a.repos && a.repos[r].name == RepoName(cfg.vias, w);
      assert r in b.repos && b.repos[r].name == RepoName(cfg.vias, w);
    case VmwareProxy =>
      var p :| p in a.proxies && a.proxies[p] == h;
      assert p in b.proxies && b.proxies[p] == h;
    case HostOnly =>
  }

  /** Configuration backup, default repository and cluster, in that order. When the caller's context is done
      no call leaves and the result is an error. */
  method FinishHA(client: Client, ghost cfg: Config, s: Settings, primary: Node, secondary: Node, id: Id) returns (ok: bool, ghost got: Answers)
    requires AllSafe(cfg, client.calls)
    requires !client.cancelled ==> WellFormed(client.srv) && OneDefault(client.srv) && ReturnsFirstRepo(cfg, client.srv, id)
    requires !client.cancelled ==> forall w | 0 <= w < |cfg.vias| :: NodeWired(cfg, client.srv, w)
    modifies client`srv, client`calls, client`tick
    ensures AllSafe(cfg, client.calls)
    ensures ok ==> !client.cancelled && ClusterReady(cfg, client.srv) && client.srv.cluster == ClusterOf(s, primary, secondary)
    ensures ok ==> s.clusterEndpoint != "" && secondary.ip != ""
    ensures ok && HasHR(cfg.vias) ==> Clustered(old(client.srv), client.srv, id, ClusterOf(s, primary, secondary))
    ensures ok ==> EndsWith(client.calls, HaOps(s, primary, secondary, got))
    ensures !HasHR(cfg.vias) && !client.cancelled ==> client.srv == old(client.srv).(cluster := client.srv.cluster)
    ensures client.cancelled ==> client.calls == old(client.calls)
    ensures old(client.calls) <= client.calls
    ensures !ok ==> client.cancelled || client.Failed() || s.clusterEndpoint == "" || secondary.ip == ""
    ensures client.srv.licensed == old(client.srv).licensed
  {
    hide EndsWith, HaOps, ClusterOf;
    ghost var wired := client.srv;
    got := Answers("", "", "", NONE);
    if id != NONE {
      ok := client.RedirectConfigBackup(id);
      if !ok {
        RedirectIsSafe(client, cfg, old(client.calls), wired, id);
        return;
      }
      ghost var i: nat :| IsFirstHR(cfg.vias, i) && NamedRepo(cfg, wired, i, id);
      RepoNameIsNotDefault(cfg.vias, i);
      ok := client.RemoveDefaultRepository(cfg);
      if !ok { return; }
      StillReady(cfg, wired, client.srv, id);
    }
    ok, got := client.CreateHA(cfg, s, primary, secondary);
    if ok { ReadyWhateverCluster(cfg, client.srv); }
  }

  lemma RedirectIsSafe(client: Client, cfg: Config, before: seq<Call>, wired: Server, id: Id)
    requires AllSafe(cfg, before)
    requires client.calls == before || (!client.cancelled && client.calls == before + [Call(PutConfigBackup(id), wired)])
    requires !client.cancelled ==> id != NONE && ReturnsFirstRepo(cfg, wired, id) && forall w | 0 <= w < |cfg.vias| :: NodeWired(cfg, wired, w)
    ensures AllSafe(cfg, client.calls)
  {
  }

  /** Being ready for a cluster does not depend on whether there is one. */
  lemma ReadyWhateverCluster(cfg: Config, srv: Server)
    ensures forall c :: ClusterReady(cfg, srv.(cluster := c)) == ClusterReady(cfg, srv)
  {
    forall c ensures ClusterReady(cfg, srv.(cluster := c)) == ClusterReady(cfg, srv) {
      var t := srv.(cluster := c);
      forall w | 0 <= w < |cfg.vias| ensures NodeWired(cfg, t, w) == NodeWired(cfg, srv, w) {
        assert forall h :: HostOf(cfg, t, w, h) == HostOf(cfg, srv, w, h);
        assert forall h :: Equipped(cfg, t, w, h) == Equipped(cfg, srv, w, h);
      }
      assert forall i: nat, r | i < |cfg.vias| :: NamedRepo(cfg, t, i, r) == NamedRepo(cfg, srv, i, r);
    }
  }

  // ---- the content at the end ----

  /** What the fan-out establishes, less the default repository when that is removed: exactly the content the
      topology calls for, each entry once. */
  ghost predicate ContentIs(cfg: Config, srv0: Server, srv: Server, cleared: bool) {
    && WellFormed(srv0) && WellFormed(srv)
    && HostsView(srv) == ExpectedHosts(cfg, srv0)
    && ReposView(srv) == ExpectedReposLess(cfg, srv0, cleared)
    && ProxiesView(srv) == ExpectedProxies(cfg, srv0)
    && ExactlyOneEach(cfg, srv)
  }

  ghost function ExpectedReposLess(cfg: Config, srv0: Server, cleared: bool): set<RepoView>
    requires WellFormed(srv0)
  {
    set v | v in ExpectedRepos(cfg, srv0) && (cleared ==> v.name != DEFAULT_REPOSITORY)
  }

  /** The fan-out's content, carried through the cluster's steps. */
  lemma ContentAfterwards(cfg: Config, srv0: Server, a: Server, b: Server, cleared: bool)
    requires ViewIsExpected(cfg, srv0, a) && ExactlyOneEach(cfg, a)
    requires b.hosts == a.hosts && b.proxies == a.proxies && b.repos == if cleared then WithoutDefault(a.repos) else a.repos
    ensures ContentIs(cfg, srv0, b, cleared)
  {
    assert forall r | r in b.repos :: r in a.repos && b.repos[r] == a.repos[r] && ViewRepo(b, b.repos[r]) == ViewRepo(a, a.repos[r]);
    assert WellFormed(b);
    ReposAfterwards(a, b, cleared);
    UniqueAfterwards(cfg, a, b);
    forall w | 0 <= w < |cfg.vias| ensures NodeWired(cfg, b, w) {
      WiredWithoutDefault(cfg, a, b, w);
    }
  }

  lemma ReposAfterwards(a: Server, b: Server, cleared: bool)
    requires WellFormed(a) && WellFormed(b)
    requires b.hosts == a.hosts && b.repos == if cleared then WithoutDefault(a.repos) else a.repos
    ensures ReposView(b) == set v | v in ReposView(a) && (cleared ==> v.name != DEFAULT_REPOSITORY)
  {
    forall v | v in ReposView(a) && (cleared ==> v.name != DEFAULT_REPOSITORY) ensures v in ReposView(b) {
      var r :| r in a.repos && ViewRepo(a, a.repos[r]) == v;
      assert r in b.repos && ViewRepo(b, b.repos[r]) == v;
    }
    forall r | r in b.repos ensures ViewRepo(b, b.repos[r]) in ReposView(a) {
      assert ViewRepo(a, a.repos[r]) == ViewRepo(b, b.repos[r]);
    }
  }

  lemma UniqueAfterwards(cfg: Config, a: Server, b: Server)
    requires NoDuplicates(cfg, a) && b.hosts == a.hosts && b.proxies == a.proxies
    requires forall r | r in b.repos :: r in a.repos && b.repos[r] == a.repos[r]
    ensures NoDuplicates(cfg, b)
  {
    assert forall w, h | 0 <= w < |cfg.vias| :: HostOf(cfg, b, w, h) == HostOf(cfg, a, w, h);
    assert forall w, r | 0 <= w < |cfg.vias| && NamedRepo(cfg, b, w, r) :: NamedRepo(cfg, a, w, r);
    assert forall p, h :: ProxyAt(b, p, h) == ProxyAt(a, p, h);
  }

  /** The license plays no part in the content. */
  lemma LicenseKeepsContent(cfg: Config, srv0: Server, licensed: Server, srv: Server, cleared: bool)
    requires ContentIs(cfg, licensed, srv, cleared) && licensed == srv0.(licensed := licensed.licensed)
    ensures ContentIs(cfg, srv0, srv, cleared)
  {
    assert forall r | r in srv0.repos :: ViewRepo(srv0, srv0.repos[r]) == ViewRepo(licensed, licensed.repos[r]);
    assert ReposView(srv0) == ReposView(licensed);
    assert forall name :: RepoNamed(srv0, name) == RepoNamed(licensed, name);
    assert ExpectedRepos(cfg, srv0) == ExpectedRepos(cfg, licensed);
  }

  /** The scheduler's choice: for each configuration and server, a schedule by whose end every worker of one
      run has ended. */
  ghost predicate Completes(pick: (Config, Server) -> seq<Step>) {
    forall c: Config, srv: Server ::
      WithoutRestart(pick(c, srv)) && AllEnded(Run(c, Launch(c, srv), pick(c, srv)))
  }

  lemma LicenseKeepsStart(cfg: Config, a: Server, b: Server)
    requires GoodStart(cfg, a) && b == a.(licensed := b.licensed)
    ensures GoodStart(cfg, b) && (OneDefault(a) ==> OneDefault(b))
  {
    assert forall w, h | 0 <= w < |cfg.vias| :: HostOf(cfg, a, w, h) == HostOf(cfg, b, w, h);
    assert forall w, r | 0 <= w < |cfg.vias| :: NamedRepo(cfg, a, w, r) == NamedRepo(cfg, b, w, r);
    assert forall p, h :: ProxyAt(a, p, h) == ProxyAt(b, p, h);
  }

  ghost predicate FanOutMade(calls: seq<Call>) { exists k :: 0 <= k < |calls| && calls[k].op.RunFanOut? }

  lemma StillMade(a: seq<Call>, b: seq<Call>)
    requires FanOutMade(a) && a <= b
    ensures FanOutMade(b)
  {
    var k :| 0 <= k < |a| && a[k].op.RunFanOut?;
    assert b[k].op.RunFanOut?;
  }

  lemma SearchIgnoresLicense(a: Server, b: Server, replies: nat -> Reply, cancelled: bool, candidates: seq<string>, from: nat, id: Id)
    requires b == a.(licensed := b.licensed) && SearchFinds(b, replies, cancelled, candidates, from, id)
    ensures SearchFinds(a, replies, cancelled, candidates, from, id)
  {
    assert forall name :: HostNamed(a, name) == HostNamed(b, name);
    forall k: nat | k < |candidates| && PassedOver(b, replies, cancelled, candidates, k, from)
      ensures PassedOver(a, replies, cancelled, candidates, k, from) {}
    if id != NONE {
      var k: nat :| FoundAt(b, replies, cancelled, candidates, from, id, k);
      assert FoundAt(a, replies, cancelled, candidates, from, id, k);
    }
  }

  /** Reaches the VSA, installs the license and resolves the mount server. */
  method PrepareVSA(client: Client, s: Settings, vias: seq<Node>, primary: Node) returns (ok: bool, cfg: Config, ghost asked: nat)
    requires client.calls == [] && client.tick == 0 && OneDefault(client.srv)
    requires GoodStart(Config(vias, PathOf(s), DaysOf(s), NONE), client.srv)
    modifies client`srv, client`calls, client`tick
    ensures cfg.vias == vias && cfg.path == PathOf(s) && cfg.days == DaysOf(s)
    ensures GoodStart(cfg, client.srv) && OneDefault(client.srv) && AllSafe(cfg, client.calls)
    ensures client.srv == old(client.srv).(licensed := client.srv.licensed)
    ensures ok ==> primary.ip != "" && (s.license != "" ==> client.srv.licensed)
    ensures ok ==>
              old(client.tick) <= asked && SearchFinds(old(client.srv), client.replies, client.cancelled, [primary.ip, primary.name], asked, cfg.mount)
    ensures !FanOutMade(client.calls)
    ensures !ok ==> primary.ip == "" || client.cancelled || client.Failed()
  {
    asked := client.tick;
    cfg := Config(vias, PathOf(s), DaysOf(s), NONE);
    ok := primary.ip != "";
    if ok { ok := client.Read(); }
    if ok && s.license != "" { ok := client.InstallLicense(s.license); }
    LicenseKeepsStart(cfg, old(client.srv), client.srv);
    if !ok { return; }
    asked := client.tick;
    var mount := client.ResolveMountServer([primary.ip, primary.name]);
    SearchIgnoresLicense(old(client.srv), client.srv, client.replies, client.cancelled, [primary.ip, primary.name], asked, mount);
    AnyMount(cfg, mount, client.srv);
    cfg := cfg.(mount := mount);
  }

  /** The fan-out followed by the HA steps a second VSA calls for. A nil error from a cancelled fan-out goes
      on, and with a second VSA ends in an error. */
  method RegisterAndCluster(client: Client, cfg: Config, s: Settings, vsas: seq<Node>, schedule: seq<Step>) returns (ok: bool, ghost got: Answers)
    requires vsas != [] && GoodStart(cfg, client.srv) && OneDefault(client.srv) && AllSafe(cfg, client.calls)
    requires WithoutRestart(schedule) && AllEnded(Run(cfg, Launch(cfg, client.srv), schedule))
    modifies client`srv, client`calls, client`tick, client`cancelled
    ensures AllSafe(cfg, client.calls)
    ensures ok && !client.cancelled ==> ContentIs(cfg, old(client.srv), client.srv, |vsas| >= 2 && HasHR(cfg.vias))
    ensures ok && |vsas| >= 2 ==> s.clusterEndpoint != "" && vsas[1].ip != ""
    ensures ok && |vsas| >= 2 ==>
              !client.cancelled && ClusterReady(cfg, client.srv) && client.srv.cluster == ClusterOf(s, vsas[0], vsas[1])
    ensures ok && |vsas| >= 2 ==> EndsWith(client.calls, HaOps(s, vsas[0], vsas[1], got))
    ensures |vsas| < 2 ==> SameRole(old(client.srv), client.srv)
    ensures ok ==> FanOutMade(client.calls) && NONE !in client.srv.hosts
    ensures ok && !client.cancelled ==> AllAddressed(cfg)
    ensures !ok && AllAddressed(cfg) && NothingFails(schedule) ==>
              client.cancelled || client.Failed() || (|vsas| >= 2 && (s.clusterEndpoint == "" || vsas[1].ip == ""))
    ensures client.srv.licensed == old(client.srv).licensed
  {
    ghost var before := client.srv;
    got := Answers("", "", "", NONE);
    var id;
    ok, id := client.WireNodes(cfg, schedule);
    if !ok { return; }
    ghost var wired, made := client.srv, client.calls;
    assert made[|made| - 1].op.RunFanOut?;
    if |vsas| >= 2 {
      DefaultStaysSingle(cfg, before, client.srv);
      ok, got := FinishHA(client, cfg, s, vsas[0], vsas[1], id);
    }
    StillMade(made, client.calls);
    if ok && !client.cancelled {
      ContentAfterwards(cfg, before, wired, client.srv, |vsas| >= 2 && HasHR(cfg.vias));
    }
  }

  /** The address of the first node with this name, "" if there is none or it has none. */
  function AddressOf(nodes: seq<Node>, name: string): string {
    if nodes == [] then "" else if nodes[0].name == name then nodes[0].ip else AddressOf(nodes[1..], name)
  }

  /** The mount server an object store is pinned to: the host of the configured node, by its address, if its
      lookup is answered. */
  ghost predicate StoreMountFound(srv: Server, replies: nat -> Reply, cancelled: bool, s: Settings, nodes: seq<Node>, mount: Id) {
    s.stores != [] ==>
      if s.stores[0].mountNode == "" then mount == NONE
      else exists from :: SearchFinds(srv, replies, cancelled, [AddressOf(nodes, s.stores[0].mountNode)], from, mount)
  }

  /** The object store's mount server: looked up once, and left out when that fails. */
  method FindStoreMount(client: Client, s: Settings, nodes: seq<Node>) returns (mount: Id)
    requires NONE !in client.srv.hosts
    modifies client`tick
    ensures StoreMountFound(client.srv, client.replies, client.cancelled, s, nodes, mount)
  {
    mount := NONE;
    if s.stores == [] || s.stores[0].mountNode == "" { return; }
    var address := "";
    for i := 0 to |nodes|
      invariant address == "" && AddressOf(nodes, s.stores[0].mountNode) == AddressOf(nodes[i..], s.stores[0].mountNode)
    {
      assert nodes[i..][1..] == nodes[i + 1..];
      if nodes[i].name == s.stores[0].mountNode {
        address := nodes[i].ip;
        break;
      }
    }
    ghost var from := client.tick;
    mount := client.ResolveMountServer([address]);
  }

  predicate IsAdvanced(op: Op) {
    op.Posts? && (op.post.call.PutExporter? || op.post.call.PostExporterAuth? || op.post.call.PutSyslog?
                  || op.post.call.PostCloudCredentials? || op.post.call.PostFolder? || op.post.call.PostObjectStore?)
  }

  /** Only calls for advanced settings were added. */
  predicate AddsAdvanced(a: seq<Call>, b: seq<Call>) {
    a <= b && forall k | |a| <= k < |b| :: IsAdvanced(b[k].op)
  }

  /** Exactly these posts were added. */
  predicate AddsPosts(a: seq<Call>, b: seq<Call>, posts: seq<Post>) { OpsOf(b) == OpsOf(a) + PostOps(posts) }

  lemma AddsChain(a: seq<Call>, b: seq<Call>, c: seq<Call>, p: seq<Post>, q: seq<Post>)
    ensures AddsAdvanced(a, b) && AddsAdvanced(b, c) ==> AddsAdvanced(a, c)
    ensures AddsPosts(a, b, p) && AddsPosts(b, c, q) ==> AddsPosts(a, c, p + q)
  {
    assert PostOps(p + q) == PostOps(p) + PostOps(q);
  }

  lemma AddedAreAdvanced(a: seq<Call>, b: seq<Call>, posts: seq<Post>)
    requires a <= b && forall k | |a| <= k < |b| :: b[k].op in PostOps(posts)
    requires forall k | 0 <= k < |posts| :: IsAdvanced(Posts(posts[k]))
    ensures AddsAdvanced(a, b)
  {
  }

  function ExporterPart(s: Settings): seq<Post> {
    if s.exporter then ExporterPosts(s.exporterTls, s.exporterUser, s.exporterPassword) else []
  }

  method SetExporter(client: Client, s: Settings) returns (ok: bool)
    modifies client`calls, client`tick
    ensures AddsAdvanced(old(client.calls), client.calls)
    ensures ok ==> AddsPosts(old(client.calls), client.calls, ExporterPart(s)) && (s.exporter ==> !client.cancelled)
    ensures !ok ==> client.cancelled || client.Failed()
  {
    if !s.exporter { return true; }
    ok := client.PostAll(ExporterPosts(s.exporterTls, s.exporterUser, s.exporterPassword));
    AddedAreAdvanced(old(client.calls), client.calls, ExporterPosts(s.exporterTls, s.exporterUser, s.exporterPassword));
  }

  method SetSyslog(client: Client, s: Settings) returns (ok: bool)
    modifies client`calls, client`tick
    ensures AddsAdvanced(old(client.calls), client.calls)
    ensures ok ==> AddsPosts(old(client.calls), client.calls, SyslogPosts(s.syslogServer, s.syslogPort, s.syslogProtocol))
    ensures ok && s.syslogServer != "" ==> !client.cancelled
    ensures !ok ==> client.cancelled || client.Failed()
  {
    if s.syslogServer == "" { return true; }
    ok := client.PostAll(SyslogPosts(s.syslogServer, s.syslogPort, s.syslogProtocol));
    AddedAreAdvanced(old(client.calls), client.calls, SyslogPosts(s.syslogServer, s.syslogPort, s.syslogProtocol));
  }

  function StorePart(s: Settings, got: Answers): seq<Post> {
    if s.stores == [] then [] else ObjectStorePosts(s.stores[0], got.storeCredential, got.storeMount)
  }

  /** Cloud credentials, the folder, the repository. Creating the folder may fail. */
  method AddObjectStore(client: Client, s: Settings, nodes: seq<Node>) returns (ok: bool, ghost got: Answers)
    requires NONE !in client.srv.hosts
    modifies client`calls, client`tick
    ensures AddsAdvanced(old(client.calls), client.calls)
    ensures ok ==> AddsPosts(old(client.calls), client.calls, StorePart(s, got)) && (s.stores != [] ==> !client.cancelled)
    ensures ok ==> StoreMountFound(client.srv, client.replies, client.cancelled, s, nodes, got.storeMount)
    ensures !ok ==> client.cancelled || client.Failed()
  {
    hide CloudBody, FolderBody, ObjectStoreBody;
    got := Answers("", "", "", NONE);
    if s.stores == [] { return true, got; }
    var o := s.stores[0];
    var credential, text;
    ok, credential := client.Ask(Post(PostCloudCredentials, CloudBody(o.accessKey, o.secretKey, "autodeploy S3 " + o.name)));
    if !ok { return; }
    var mount := FindStoreMount(client, s, nodes);
    if o.compatible && o.folder != "" {
      ok, text := client.Ask(Post(PostFolder, FolderBody(credential, o.servicePoint, o.region, o.bucket, o.folder)));
    }
    ok, text := client.Ask(Post(PostObjectStore(o.overwriteOwner), ObjectStoreBody(o, credential, mount)));
    got := Answers("", "", credential, mount);
  }

  function AdvancedPosts(s: Settings, got: Answers): seq<Post> {
    ExporterPart(s) + SyslogPosts(s.syslogServer, s.syslogPort, s.syslogProtocol) + StorePart(s, got)
  }

  /** node_exporter, syslog and object storage, each when configured. */
  method ApplyAdvanced(client: Client, s: Settings, nodes: seq<Node>) returns (ok: bool, ghost got: Answers)
    requires NONE !in client.srv.hosts
    modifies client`calls, client`tick
    ensures AddsAdvanced(old(client.calls), client.calls)
    ensures ok ==> AddsPosts(old(client.calls), client.calls, AdvancedPosts(s, got))
    ensures ok ==> StoreMountFound(client.srv, client.replies, client.cancelled, s, nodes, got.storeMount)
    ensures ok && HasAdvanced(s) ==> !client.cancelled
    ensures !ok ==> client.cancelled || client.Failed()
  {
    hide AddsAdvanced, AddsPosts, StoreMountFound, ExporterPart, StorePart, SyslogPosts;
    ghost var a := client.calls;
    got := Answers("", "", "", NONE);
    ok := SetExporter(client, s);
    if !ok { return; }
    ghost var b := client.calls;
    ok := SetSyslog(client, s);
    AddsChain(a, b, client.calls, ExporterPart(s), SyslogPosts(s.syslogServer, s.syslogPort, s.syslogProtocol));
    if !ok { return; }
    ghost var c := client.calls;
    ok, got := AddObjectStore(client, s, nodes);
    AddsChain(a, c, client.calls, ExporterPart(s) + SyslogPosts(s.syslogServer, s.syslogPort, s.syslogProtocol), StorePart(s, got));
  }

  function LastOps(s: Settings, vsas: seq<Node>, got: Answers): seq<Op> {
    (if |vsas| >= 2 then HaOps(s, vsas[0], vsas[1], got) else []) + PostOps(AdvancedPosts(s, got))
  }

  /** Calls for advanced settings are safe anywhere and touch no server role. */
  lemma AdvancedIsSafe(cfg: Config, a: seq<Call>, b: seq<Call>)
    requires AddsAdvanced(a, b)
    ensures AllSafe(cfg, a) ==> AllSafe(cfg, b)
    ensures FanOutMade(a) <==> FanOutMade(b)
    ensures (forall k | 0 <= k < |a| :: !TouchesServerRole(a[k].op)) ==> forall k | 0 <= k < |b| :: !TouchesServerRole(b[k].op)
  {
    if FanOutMade(a) {
      StillMade(a, b);
    }
    if FanOutMade(b) {
      var k :| 0 <= k < |b| && b[k].op.RunFanOut?;
      assert a[k].op.RunFanOut?;
    }
    assert forall k | 0 <= k < |b| :: (k < |a| && b[k] == a[k]) || IsAdvanced(b[k].op);
  }

  lemma EndsWithPosts(before: seq<Call>, after: seq<Call>, posts: seq<Post>)
    requires AddsPosts(before, after, posts)
    ensures EndsWith(after, PostOps(posts))
  {
    assert |after| == |OpsOf(after)| && |before| == |OpsOf(before)|;
  }

  /** What the wiring ends with, put together from the cluster's calls and the settings'. */
  lemma LastCalls(before: seq<Call>, after: seq<Call>, s: Settings, vsas: seq<Node>, ha: Answers, store: Answers) returns (got: Answers)
    requires AddsPosts(before, after, AdvancedPosts(s, store)) && (|vsas| >= 2 ==> EndsWith(before, HaOps(s, vsas[0], vsas[1], ha)))
    ensures got == Answers(ha.credential, ha.certificate, store.storeCredential, store.storeMount)
    ensures EndsWith(after, LastOps(s, vsas, got))
  {
    got := Answers(ha.credential, ha.certificate, store.storeCredential, store.storeMount);
    assert AdvancedPosts(s, store) == AdvancedPosts(s, got);
    if |vsas| >= 2 { OwnAnswers(s, vsas[0], vsas[1], ha, got); }
    hide HaOps, AdvancedPosts;
    var a := if |vsas| >= 2 then HaOps(s, vsas[0], vsas[1], got) else [];
    assert a == [] ==> EndsWith(before, a);
    EndsWithBoth(before, after, a, AdvancedPosts(s, got));
  }

  /** The cluster's calls depend on the cluster's answers only. */
  lemma OwnAnswers(s: Settings, p: Node, q: Node, a: Answers, b: Answers)
    requires a.credential == b.credential && a.certificate == b.certificate
    ensures HaOps(s, p, q, a) == HaOps(s, p, q, b)
  {
  }

  lemma EndsWithBoth(before: seq<Call>, after: seq<Call>, ops: seq<Op>, posts: seq<Post>)
    requires EndsWith(before, ops) && AddsPosts(before, after, posts)
    ensures EndsWith(after, ops + PostOps(posts))
  {
    assert |after| == |OpsOf(after)| && |before| == |OpsOf(before)|;
    assert OpsOf(after)[|after| - |ops + PostOps(posts)|..] == ops + PostOps(posts);
  }

  /** The whole wiring of a deployment that brings its own VSA. The cluster call comes only after everything
      it depends on, whatever fails on the way; success that was not cancelled means exactly the topology's
      content is registered, less the default repository if there is a cluster and a hardened repository, and
      with two VSAs success means that the server is clustered. */
  method WireDeployment(client: Client, s: Settings, nodes: seq<Node>, pick: (Config, Server) -> seq<Step>) returns (ok: bool, cfg: Config, ghost asked: nat, ghost got: Answers)
    requires client.calls == [] && client.tick == 0 && OneDefault(client.srv)
    requires GoodStart(Config(Vias(nodes), PathOf(s), DaysOf(s), NONE), client.srv)
    requires Vsas(nodes) != [] && Completes(pick)
    modifies client
    ensures cfg.vias == Vias(nodes) && cfg.path == PathOf(s) && cfg.days == DaysOf(s)
    ensures AllSafe(cfg, client.calls)
    ensures ok && !client.cancelled ==> ContentIs(cfg, old(client.srv), client.srv, |Vsas(nodes)| >= 2 && HasHR(Vias(nodes)))
    ensures ok && |Vsas(nodes)| >= 2 ==> s.clusterEndpoint != "" && Vsas(nodes)[1].ip != ""
    ensures ok && |Vsas(nodes)| >= 2 ==>
              ClusterReady(cfg, client.srv) && client.srv.cluster == ClusterOf(s, Vsas(nodes)[0], Vsas(nodes)[1])
    ensures ok ==> FanOutMade(client.calls)
    ensures FanOutMade(client.calls) ==>
              old(client.tick) <= asked
              && SearchFinds(old(client.srv), client.replies, old(client.cancelled), [Vsas(nodes)[0].ip, Vsas(nodes)[0].name], asked, cfg.mount)
    ensures ok ==> EndsWith(client.calls, LastOps(s, Vsas(nodes), got)) && StoreMountFound(client.srv, client.replies, client.cancelled, s, nodes, got.storeMount)
    ensures ok && HasAdvanced(s) ==> !client.cancelled
    ensures |Vsas(nodes)| < 2 ==> SameRole(old(client.srv), client.srv.(licensed := old(client.srv.licensed)))
    ensures ok && !client.cancelled ==> Wireable(s, Vias(nodes), Vsas(nodes))
    ensures !ok && Wireable(s, Vias(nodes), Vsas(nodes)) && NeverFails(pick) ==> client.cancelled || client.Failed()
    ensures ok && s.license != "" ==> client.srv.licensed
  {
    hide SearchFinds, ContentIs, GoodStart, AddsPosts, AddsAdvanced, StoreMountFound, AdvancedPosts, ClusterReady;
    got := Answers("", "", "", NONE);
    ok, cfg, asked := PrepareVSA(client, s, Vias(nodes), Vsas(nodes)[0]);
    if !ok { return; }
    ghost var licensed := client.srv;
    ok, got := RegisterAndCluster(client, cfg, s, Vsas(nodes), pick(cfg, client.srv));
    if !ok { return; }
    if !client.cancelled {
      LicenseKeepsContent(cfg, old(client.srv), licensed, client.srv, |Vsas(nodes)| >= 2 && HasHR(cfg.vias));
    }
    ghost var made, ha := client.calls, got;
    ok, got := ApplyAdvanced(client, s, nodes);
    AdvancedIsSafe(cfg, made, client.calls);
    if ok {
      got := LastCalls(made, client.calls, s, Vsas(nodes), ha, got);
    }
  }

  /** Reaches the existing server and resolves its mount server; nothing is changed. */
  method PrepareTarget(client: Client, s: Settings, vias: seq<Node>) returns (ok: bool, cfg: Config, ghost asked: nat)
    requires client.calls == [] && GoodStart(Config(vias, PathOf(s), DaysOf(s), NONE), client.srv)
    modifies client`tick
    ensures cfg.vias == vias && cfg.path == PathOf(s) && cfg.days == DaysOf(s) && GoodStart(cfg, client.srv)
    ensures ok ==> s.target != ""
    ensures ok ==> old(client.tick) <= asked && SearchFinds(client.srv, client.replies, client.cancelled, [s.target], asked, cfg.mount)
    ensures !ok ==> s.target == "" || client.cancelled || client.Failed()
  {
    asked := client.tick;
    cfg := Config(vias, PathOf(s), DaysOf(s), NONE);
    if s.target == "" { return false, cfg, asked; }
    ok := client.Read();
    if !ok { return; }
    asked := client.tick;
    var mount := client.ResolveMountServer([s.target]);
    AnyMount(cfg, mount, client.srv);
    cfg := cfg.(mount := mount);
  }

  /** The fan-out and nothing else. */
  method RegisterOnly(client: Client, cfg: Config, schedule: seq<Step>) returns (ok: bool)
    requires GoodStart(cfg, client.srv) && WithoutRestart(schedule) && AllEnded(Run(cfg, Launch(cfg, client.srv), schedule))
    modifies client`srv, client`calls, client`cancelled
    ensures client.calls == old(client.calls) + [Call(RunFanOut, old(client.srv))]
    ensures Extends(old(client.srv), client.srv) && SameRole(old(client.srv), client.srv) && NONE !in client.srv.hosts
    ensures ok && !client.cancelled ==> ContentIs(cfg, old(client.srv), client.srv, false) && AllAddressed(cfg)
    ensures !ok && AllAddressed(cfg) ==> !NothingFails(schedule)
  {
    hide ContentIs, ViewIsExpected, ExactlyOneEach, GoodStart, OnlyWanted, ReturnsFirstRepo, Run, AllEnded, NothingFails;
    var repo;
    ok, repo := client.WireNodes(cfg, schedule);
    if ok && !client.cancelled {
      ContentAfterwards(cfg, old(client.srv), client.srv, client.srv, false);
    }
  }

  lemma FanOutAlone(calls: seq<Call>, at: Server)
    requires calls == [] + [Call(RunFanOut, at)]
    ensures FanOutMade(calls) && forall k | 0 <= k < |calls| :: !TouchesServerRole(calls[k].op)
  {
    assert calls[0].op.RunFanOut?;
  }

  lemma Unchanged(srv: Server)
    ensures Extends(srv, srv) && SameRole(srv, srv) && !FanOutMade([])
  {
  }

  /** Wiring into an existing server: it registers exactly the nodes' content and leaves the server's license, configuration
      backup, repositories, backups and cluster alone. */
  method WireStandalone(client: Client, s: Settings, nodes: seq<Node>, pick: (Config, Server) -> seq<Step>) returns (ok: bool, cfg: Config, ghost asked: nat, ghost got: Answers)
    requires client.calls == [] && client.tick == 0 && Vsas(nodes) == [] && Completes(pick)
    requires GoodStart(Config(Vias(nodes), PathOf(s), DaysOf(s), NONE), client.srv)
    modifies client
    ensures cfg.vias == Vias(nodes) && cfg.path == PathOf(s) && cfg.days == DaysOf(s)
    ensures forall k | 0 <= k < |client.calls| :: !TouchesServerRole(client.calls[k].op)
    ensures Extends(old(client.srv), client.srv) && SameRole(old(client.srv), client.srv)
    ensures ok ==> s.target != "" && FanOutMade(client.calls)
    ensures FanOutMade(client.calls) ==>
              old(client.tick) <= asked && SearchFinds(old(client.srv), client.replies, old(client.cancelled), [s.target], asked, cfg.mount)
    ensures ok && !client.cancelled ==> ContentIs(cfg, old(client.srv), client.srv, false)
    ensures ok ==> EndsWith(client.calls, PostOps(AdvancedPosts(s, got))) && StoreMountFound(client.srv, client.replies, client.cancelled, s, nodes, got.storeMount)
    ensures ok && HasAdvanced(s) ==> !client.cancelled
    ensures ok && !client.cancelled ==> Wireable(s, Vias(nodes), [])
    ensures !ok && s.target != "" && Wireable(s, Vias(nodes), []) && NeverFails(pick) ==> client.cancelled || client.Failed()
  {
    got := Answers("", "", "", NONE);
    hide StoreMountFound, AddsPosts, AddsAdvanced, AdvancedPosts, EndsWith, SearchFinds, ContentIs, GoodStart;
    hide Run, AllEnded, NothingFails, Extends, SameRole, FanOutMade, TouchesServerRole;
    Unchanged(client.srv);
    ok, cfg, asked := PrepareTarget(client, s, Vias(nodes));
    if !ok { return; }
    ok := RegisterOnly(client, cfg, pick(cfg, client.srv));
    FanOutAlone(client.calls, old(client.srv));
    if !ok { return; }
    ghost var made := client.calls;
    ok, got := ApplyAdvanced(client, s, nodes);
    if ok {
      EndsWithPosts(made, client.calls, AdvancedPosts(s, got));
    }
    AdvancedIsSafe(cfg, made, client.calls);
  }
}
