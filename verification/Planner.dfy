/** The planner: the wiring of a specification written out as a straight-line sequence of REST calls over
    named variables. */
module Planner {
  import opened Topology
  import opened Naming
  import opened Decimal
  import opened Bodies

  datatype S3 = S3(
    enabled: bool, name: string, compatible: bool, servicePoint: string, region: string, bucket: string,
    folder: string, immutableDays: int, mountNode: string, overwriteOwner: bool)

  /** license is the normalised license text, "" when none is to be installed. */
  datatype Spec = Spec(
    nodes: seq<Node>, username: string, license: string,
    exporter: bool, exporterTls: bool, exporterUser: string, syslogServer: string, syslogPort: int, syslogProtocol: string,
    s3: S3, clusterDns: string, clusterEndpoint: string, path: string, days: int)

  // ---- variables and texts ----

  /** The variables of the generated script: the preamble's, and those a step captures. */
  datatype Var =
    | BaseURL | User | Password | ApiVersion | S3AccessKey | S3SecretKey | ExporterPass
    | HrMount | HostId(i: nat) | RepoId(i: nat)
    | DefaultRepo | HaCred | HaCert | HaSession
    | S3Cred | MountServer | S3Host | S3Session

  function Spell(v: Var): string {
    match v
    case BaseURL => "BaseURL"
    case User => "Username"
    case Password => "Password"
    case ApiVersion => "APIVersion"
    case S3AccessKey => "S3AccessKey"
    case S3SecretKey => "S3SecretKey"
    case ExporterPass => "NeBasicPass"
    case HrMount => "hrMount_id"
    case HostId(i) => "host" + Itoa(i) + "_id"
    case RepoId(i) => "repo" + Itoa(i) + "_id"
    case DefaultRepo => "defaultRepo_id"
    case HaCred => "haCred_id"
    case HaCert => "haCert_cert"
    case HaSession => "ha_sess"
    case S3Cred => "s3Cred_id"
    case MountServer => "mountSrv_id"
    case S3Host => "s3Host_id"
    case S3Session => "s3Repo_sess"
  }

  /** A value in a request: fixed, taken from the specification, a reference to a variable, a number or a
      truth value. */
  datatype Text = Fixed(s: string) | Given(s: string) | Ref(v: Var) | Amount(n: int) | Truth(b: bool)

  function Render(t: Text): string
    requires !t.Amount? && !t.Truth?
  {
    match t
    case Fixed(s) => s
    case Given(s) => s
    case Ref(v) => "$" + Spell(v)
  }

  /** One leaf of a body. */
  datatype Item = Item(key: Key, text: Text)

  function Texts(body: seq<Item>): seq<Text> { seq(|body|, i requires 0 <= i < |body| => body[i].text) }

  datatype Option<T> = None | Some(value: T)

  /** One step of the plan. query is what follows the fixed front of the path, captures the variables the response sets, session the variable that holds the session to wait for. */
  datatype Step =
    | Request(call: Endpoint, query: seq<Text>, body: seq<Item>, captures: seq<Var>, session: Option<Var>)
    | Redirect(target: Var)
    | WireHr(host: Var, repo: Var, ip: string, role: string, repoName: string, repoPath: string, days: nat, mount: Option<Var>)
    | WireProxy(host: Var, ip: string, role: string)
    | AddS3(overwrite: bool, body: seq<Item>, session: Option<Var>, retryHost: Option<Var>)

  // ---- defaults ----

  function Or(s: string, fallback: string): string { if s == "" then fallback else s }

  function RepoPath(s: Spec): string { Or(s.path, "/var/lib/veeam/backups") }

  function RepoDays(s: Spec): nat { if s.days <= 0 then 7 else s.days }

  function Username(s: Spec): string { Or(s.username, "veeamadmin") }

  function Protocol(s: Spec): string { Or(s.syslogProtocol, "Udp") }

  function SyslogPort(s: Spec): int { if s.syslogPort <= 0 then 514 else s.syslogPort }

  // ---- names ----

  /** The planner names a node by its hostname, or by its address when it has none. */
  function Named(n: Node): Node { n.(name := Or(n.name, n.ip)) }

  function NamedAll(nodes: seq<Node>): (r: seq<Node>)
    ensures |r| == |nodes| && forall i | 0 <= i < |nodes| :: r[i] == Named(nodes[i])
  {
    seq(|nodes|, i requires 0 <= i < |nodes| => Named(nodes[i]))
  }

  // ---- the parts of the plan ----

  function Send(call: Endpoint, body: seq<Item>): Step { Request(call, [], body, [], None) }

  function FindServer(name: string, v: Var): Step {
    Request(FindManagedServer, [Given(name), Fixed("&limit=10")], [], [v], None)
  }

  function LicensePart(s: Spec): seq<Step> {
    if s.license == "" then [] else [Send(GetLicense, []), Send(InstallLicense, [Item(License, Given(s.license))])]
  }

  /** The variable that holds the mount server, and the step that sets it. */
  function Mount(vsas: seq<Node>, vias: seq<Node>): Option<Var> {
    if HasHR(vias) && vsas != [] && vsas[0].ip != "" then Some(HrMount) else None
  }

  function MountPart(vsas: seq<Node>, vias: seq<Node>): seq<Step> {
    if HasHR(vias) && vsas != [] && vsas[0].ip != "" then [FindServer(vsas[0].ip, HrMount)] else []
  }

  /** A node's step; a node that is neither hardened repository nor proxy has none. */
  function ViaStep(s: Spec, vias: seq<Node>, i: nat, mount: Option<Var>): seq<Step>
    requires i < |vias|
  {
    match DutyOf(vias[i].role)
    case HardenedRepo =>
      [WireHr(HostId(i), RepoId(i), vias[i].ip, vias[i].role, RepoName(NamedAll(vias), i), RepoPath(s), RepoDays(s), mount)]
    case VmwareProxy => [WireProxy(HostId(i), vias[i].ip, vias[i].role)]
    case HostOnly => []
  }

  /** The steps of the first n nodes. */
  function ViaPart(s: Spec, vias: seq<Node>, n: nat, mount: Option<Var>): seq<Step>
    requires n <= |vias|
  {
    if n == 0 then [] else ViaPart(s, vias, n - 1, mount) + ViaStep(s, vias, n - 1, mount)
  }

  /** The index of the first hardened repository, -1 if there is none. */
  function FirstHR(vias: seq<Node>): int {
    FirstHRBefore(vias, |vias|)
  }

  function FirstHRBefore(vias: seq<Node>, n: nat): (i: int)
    requires n <= |vias|
    ensures -1 <= i < n
    ensures i >= 0 ==> IsFirstHR(vias, i)
    ensures i == -1 ==> forall k | 0 <= k < n :: !DutyOf(vias[k].role).HardenedRepo?
  {
    if n == 0 then -1
    else
      var before := FirstHRBefore(vias, n - 1);
      if before == -1 && DutyOf(vias[n - 1].role).HardenedRepo? then n - 1 else before
  }

  /** The variable the configuration backup is redirected to; without a hardened repository it is one that
      nothing sets. */
  function Target(vias: seq<Node>): Var {
    RepoId(if FirstHR(vias) >= 0 then FirstHR(vias) else 0)
  }

  function ClusterDns(s: Spec, primary: Node): string { Or(s.clusterDns, primary.name) }

  /** The cluster's body; an endpoint that is not configured is left out. */
  function ClusterItems(s: Spec, p: Node, q: Node): seq<Item> {
    [Item(PrimaryIp, Given(p.ip)), Item(SecondaryIp, Given(q.ip)), Item(SecondaryCredentials, Ref(HaCred)),
     Item(ClusterName, Given(ClusterDns(s, p))), Item(CertificateText, Ref(HaCert)), Item(CertificateFormat, Fixed("Pem"))]
    + (if s.clusterEndpoint == "" then [] else [Item(ClusterEndpoint, Given(s.clusterEndpoint))])
  }

  function CredentialsItems(s: Spec): seq<Item> {
    [Item(Type, Fixed("Linux")), Item(AccountName, Given(Username(s))), Item(AccountPassword, Ref(Password)),
     Item(Description, Fixed("HA secondary node")), Item(AuthenticationType, Fixed("Password"))]
  }

  function CertificateItems(q: Node): seq<Item> {
    [Item(ServerName, Given(q.ip)), Item(Type, Fixed("LinuxHost")), Item(CredentialsId, Ref(HaCred))]
  }

  function HaPart(s: Spec, vsas: seq<Node>, vias: seq<Node>): seq<Step> {
    if |vsas| < 2 then []
    else
      [Redirect(Target(vias)),
       Request(FindDefaultRepository, [], [], [DefaultRepo], None),
       Request(DeleteRepository, [Ref(DefaultRepo)], [], [], None),
       Request(PostCredentials, [], CredentialsItems(s), [HaCred], None),
       Request(PostCertificate, [], CertificateItems(vsas[1]), [HaCert], None),
       Request(PostCluster, [], ClusterItems(s, vsas[0], vsas[1]), [HaSession], Some(HaSession))]
  }

  function ExporterItems(s: Spec): seq<Item> {
    [Item(Sharing, Truth(true)), Item(Tls, Truth(s.exporterTls))]
    + (if s.exporterUser == "" then [Item(AuthType, Fixed("None"))]
       else [Item(AuthType, Fixed("UsernamePassword")), Item(AuthUser, Given(s.exporterUser)), Item(AuthPassword, Ref(ExporterPass))])
  }

  function ExporterPart(s: Spec): seq<Step> {
    if !s.exporter then []
    else if s.exporterUser == "" then [Send(PutExporter, ExporterItems(s))]
    else [Send(PutExporter, ExporterItems(s)),
          Send(PostExporterAuth, [Item(AccountName, Given(s.exporterUser)), Item(AccountPassword, Ref(ExporterPass))])]
  }

  function SyslogPart(s: Spec): seq<Step> {
    if s.syslogServer == "" then []
    else [Send(PutSyslog, [Item(ServerName, Given(s.syslogServer)), Item(Port, Amount(SyslogPort(s))), Item(Transport, Given(Protocol(s)))])]
  }

  function FolderPart(s3: S3): seq<Step> {
    if s3.compatible && s3.folder != ""
    then [Send(PostFolder, [Item(CredentialsId, Ref(S3Cred)), Item(ServiceType, Fixed("S3Compatible")), Item(FolderName, Given(s3.folder)),
                            Item(ConnectionPoint, Given(s3.servicePoint)), Item(RegionId, Given(s3.region)), Item(BucketName, Given(s3.bucket))])]
    else []
  }

  /** The host whose components are refreshed when the repository is refused, and the step that finds it. */
  function RetryHost(s3: S3, vsas: seq<Node>): Option<Var> {
    if s3.mountNode != "" then Some(MountServer) else if vsas != [] && vsas[0].ip != "" then Some(S3Host) else None
  }

  function RetryHostPart(s3: S3, vsas: seq<Node>): seq<Step> {
    if s3.mountNode != "" then [FindServer(s3.mountNode, MountServer)]
    else if vsas != [] && vsas[0].ip != "" then [FindServer(vsas[0].ip, S3Host)]
    else []
  }

  function StoreItems(s3: S3): seq<Item> {
    if s3.compatible
    then [Item(Type, Fixed("S3Compatible")), Item(Name, Given(s3.name)), Item(Description, Fixed("autodeploy object storage")),
          Item(AccountServicePoint, Given(s3.servicePoint)), Item(AccountRegion, Given(s3.region)), Item(AccountCredentials, Ref(S3Cred)),
          Item(AccountConnection, Fixed("Direct")), Item(BucketName, Given(s3.bucket)), Item(BucketFolder, Given(s3.folder))]
    else [Item(Type, Fixed("AmazonS3")), Item(Name, Given(s3.name)), Item(Description, Fixed("autodeploy object storage")),
          Item(AccountCredentials, Ref(S3Cred)), Item(AccountRegionType, Fixed("Global")), Item(AccountConnection, Fixed("Direct")),
          Item(BucketRegion, Given(s3.region)), Item(BucketName, Given(s3.bucket)), Item(BucketFolder, Given(s3.folder))]
  }

  function ImmutableItems(s3: S3): seq<Item> {
    if s3.immutableDays > 0
    then [Item(ImmutableOn, Truth(true)), Item(ImmutableDays, Amount(s3.immutableDays)), Item(ImmutableMode, Fixed("RepositorySettings"))]
    else []
  }

  function MountItems(s3: S3): seq<Item> {
    if s3.mountNode != ""
    then [Item(MountType, Fixed("Linux")), Item(MountServerId, Ref(MountServer)), Item(PowerNfs, Truth(false)), Item(WriteCache, Fixed("/tmp"))]
    else []
  }

  function RepositoryItems(s3: S3): seq<Item> { StoreItems(s3) + ImmutableItems(s3) + MountItems(s3) }

  function S3Part(s: Spec, vsas: seq<Node>): seq<Step> {
    if !s.s3.enabled then []
    else
      [Request(PostCloudCredentials, [],
               [Item(Type, Fixed("Amazon")), Item(AccessKey, Ref(S3AccessKey)), Item(SecretKey, Ref(S3SecretKey)),
                Item(Description, Given("autodeploy S3 " + s.s3.name))], [S3Cred], None)]
      + FolderPart(s.s3)
      + RetryHostPart(s.s3, vsas)
      + [AddS3(s.s3.overwriteOwner, RepositoryItems(s.s3), Some(S3Session), RetryHost(s.s3, vsas))]
  }

  /** The whole plan. */
  function PlanOf(s: Spec): seq<Step> {
    var vsas, vias := Vsas(s.nodes), Vias(s.nodes);
    LicensePart(s) + MountPart(vsas, vias) + ViaPart(s, vias, |vias|, Mount(vsas, vias)) + HaPart(s, vsas, vias)
    + ExporterPart(s) + SyslogPart(s) + S3Part(s, vsas)
  }

  // ---- the planner's loops ----

  lemma {:induction false} VsasSnoc(nodes: seq<Node>, n: Node)
    ensures Vsas(nodes + [n]) == Vsas(nodes) + (if IsVSA(n.role) then [n] else [])
  {
    if nodes == [] {
      assert nodes + [n] == [n];
    } else {
      assert (nodes + [n])[1..] == nodes[1..] + [n];
      VsasSnoc(nodes[1..], n);
    }
  }

  lemma {:induction false} ViasSnoc(nodes: seq<Node>, n: Node)
    ensures Vias(nodes + [n]) == Vias(nodes) + (if IsVSA(n.role) then [] else [n])
  {
    if nodes == [] {
      assert nodes + [n] == [n];
    } else {
      assert (nodes + [n])[1..] == nodes[1..] + [n];
      ViasSnoc(nodes[1..], n);
    }
  }

  /** One pass splits the nodes by role, in order. */
  method SplitByRole(nodes: seq<Node>) returns (vsas: seq<Node>, vias: seq<Node>)
    ensures vsas == Vsas(nodes) && vias == Vias(nodes)
  {
    vsas, vias := [], [];
    for k := 0 to |nodes|
      invariant vsas == Vsas(nodes[..k]) && vias == Vias(nodes[..k])
    {
      VsasSnoc(nodes[..k], nodes[k]);
      ViasSnoc(nodes[..k], nodes[k]);
      assert nodes[..k + 1] == nodes[..k] + [nodes[k]];
      if IsVSA(nodes[k].role) {
        vsas := vsas + [nodes[k]];
      } else {
        vias := vias + [nodes[k]];
      }
    }
    assert nodes[..|nodes|] == nodes;
  }

  lemma {:induction false} CountedMeansHR(vias: seq<Node>, name: string)
    requires NameCount(vias, name) > 0
    ensures HasHR(vias)
  {
    if DutyOf(vias[0].role).HardenedRepo? {
      assert DutyOf(vias[0].role).HardenedRepo?;
    } else {
      CountedMeansHR(vias[1..], name);
      var i :| 0 <= i < |vias[1..]| && DutyOf(vias[1..][i].role).HardenedRepo?;
      assert DutyOf(vias[i + 1].role).HardenedRepo?;
    }
  }

  /** The count map is empty exactly when there is no hardened repository. */
  lemma CountMapEmpty(vias: seq<Node>, count: map<string, nat>)
    requires forall n :: n in count <==> NameCount(NamedAll(vias), n) > 0
    ensures count == map[] <==> !HasHR(vias)
  {
    var named := NamedAll(vias);
    if HasHR(vias) {
      var i :| 0 <= i < |vias| && DutyOf(vias[i].role).HardenedRepo?;
      OneNameIsCounted(named, i);
      assert named[i].name in count;
    }
    if count != map[] {
      var n :| n in count;
      CountedMeansHR(named, n);
      var i :| 0 <= i < |named| && DutyOf(named[i].role).HardenedRepo?;
      assert DutyOf(vias[i].role).HardenedRepo?;
    }
  }

  /** The planner: steps are appended one by one, repository names come from a count map filled beforehand,
      and the first hardened repository is remembered on the way. */
  method Plan(s: Spec) returns (steps: seq<Step>)
    ensures steps == PlanOf(s)
  {
    steps := LicensePart(s);
    var vsas, vias := SplitByRole(s.nodes);
    var count := CountNames(NamedAll(vias));
    CountMapEmpty(vias, count);
    var mount := None;
    if count != map[] && vsas != [] && vsas[0].ip != "" {
      mount := Some(HrMount);
      steps := steps + [FindServer(vsas[0].ip, HrMount)];
    }
    assert mount == Mount(vsas, vias);
    assert steps == LicensePart(s) + MountPart(vsas, vias);
    var viaSteps, first := WireNodes(s, vias, count, mount);
    assert Target(vias) == RepoId(if first >= 0 then first else 0);
    steps := steps + viaSteps + HaPart(s, vsas, vias) + ExporterPart(s) + SyslogPart(s) + S3Part(s, vsas);
  }

  /** The loop over the nodes. */
  method WireNodes(s: Spec, vias: seq<Node>, count: map<string, nat>, mount: Option<Var>) returns (steps: seq<Step>, first: int)
    requires forall n :: n in count <==> NameCount(NamedAll(vias), n) > 0
    requires forall n | n in count :: count[n] == NameCount(NamedAll(vias), n)
    ensures steps == ViaPart(s, vias, |vias|, mount) && first == FirstHR(vias)
  {
    steps, first := [], -1;
    for i := 0 to |vias|
      invariant steps == ViaPart(s, vias, i, mount)
      invariant first == FirstHRBefore(vias, i)
    {
      var n := vias[i];
      if IsHR(n.role) {
        var name := Or(n.name, n.ip);
        OneNameIsCounted(NamedAll(vias), i);
        var repo := "HR-" + name;
        if count[name] > 1 {
          repo := repo + "-" + n.ip;
        }
        steps := steps + [WireHr(HostId(i), RepoId(i), n.ip, n.role, repo, RepoPath(s), RepoDays(s), mount)];
        if first == -1 {
          first := i;
        }
      } else if IsProxy(n.role) {
        steps := steps + [WireProxy(HostId(i), n.ip, n.role)];
      }
    }
  }
}
