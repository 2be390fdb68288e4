/** The bodies the live client sends, as the client builds them: nested objects are flattened to one key per
    leaf. */
module Bodies {
  import Strings = Text
  import opened Topology

  datatype Json = Str(s: string) | Num(n: int) | Flag(b: bool)

  /** The leaves of the request bodies. */
  datatype Key =
    | Type | Name | Description | License
    | AccountName | AccountPassword | AuthenticationType
    | ServerName | CredentialsId
    | PrimaryIp | SecondaryIp | SecondaryCredentials | ClusterName | CertificateText | CertificateFormat | ClusterEndpoint
    | Sharing | Tls | AuthType | AuthUser | AuthPassword
    | Port | Transport
    | AccessKey | SecretKey
    | ServiceType | FolderName | ConnectionPoint | RegionId | BucketName
    | AccountServicePoint | AccountRegion | AccountCredentials | AccountRegionType | AccountConnection
    | BucketRegion | BucketFolder | ImmutableOn | ImmutableDays | ImmutableMode
    | MountType | MountServerId | PowerNfs | WriteCache

  datatype Field = Field(key: Key, value: Json)

  /** An object: the order in which its fields were set does not matter. */
  type Body = map<Key, Json>

  function Built(fields: seq<Field>): Body {
    if fields == [] then map[] else Built(fields[1..])[fields[0].key := fields[0].value]
  }

  lemma {:induction false} BuiltAt(fields: seq<Field>, i: nat)
    requires i < |fields| && forall k | 0 <= k < i :: fields[k].key != fields[i].key
    ensures fields[i].key in Built(fields) && Built(fields)[fields[i].key] == fields[i].value
  {
    if i > 0 {
      assert fields[1..][i - 1] == fields[i] && forall k | 0 <= k < i - 1 :: fields[1..][k] == fields[k + 1];
      BuiltAt(fields[1..], i - 1);
    }
  }

  lemma {:induction false} NotBuilt(fields: seq<Field>, key: Key)
    requires forall k | 0 <= k < |fields| :: fields[k].key != key
    ensures key !in Built(fields)
  {
    if fields != [] {
      NotBuilt(fields[1..], key);
    }
  }

  datatype Endpoint =
    | GetLicense | InstallLicense | FindManagedServer | FindDefaultRepository | DeleteRepository
    | PostCredentials | PostCertificate | PostCluster
    | PutExporter | PostExporterAuth | PutSyslog | PostCloudCredentials | PostFolder
    | PostObjectStore(overwriteOwner: bool)

  /** One call with a body. */
  datatype Post = Post(call: Endpoint, body: Body)

  // ---- the client's builders ----

  function LicenseBody(payload: string): Body { Built([Field(License, Str(payload))]) }

  function CredentialsFields(username: string, password: string, description: string): seq<Field> {
    [Field(Type, Str("Linux")), Field(AccountName, Str(username)), Field(AccountPassword, Str(password)),
     Field(Description, Str(description)), Field(AuthenticationType, Str("Password"))]
  }

  function CredentialsBody(username: string, password: string, description: string): Body {
    Built(CredentialsFields(username, password, description))
  }

  function CertificateFields(ip: string, credentials: string): seq<Field> {
    [Field(ServerName, Str(ip)), Field(Type, Str("LinuxHost"))]
    + (if credentials == "" then [] else [Field(CredentialsId, Str(credentials))])
  }

  function CertificateBody(ip: string, credentials: string): Body { Built(CertificateFields(ip, credentials)) }

  function ClusterFields(primary: string, secondary: string, credentials: string, dns: string, certificate: string, endpoint: string): seq<Field> {
    [Field(PrimaryIp, Str(primary)), Field(SecondaryIp, Str(secondary)), Field(SecondaryCredentials, Str(credentials)),
     Field(ClusterName, Str(dns)), Field(CertificateText, Str(certificate)), Field(CertificateFormat, Str("Pem"))]
    + (if endpoint == "" then [] else [Field(ClusterEndpoint, Str(endpoint))])
  }

  function ClusterBody(primary: string, secondary: string, credentials: string, dns: string, certificate: string, endpoint: string): Body {
    Built(ClusterFields(primary, secondary, credentials, dns, certificate, endpoint))
  }

  function ExporterFields(tls: bool, username: string, password: string): seq<Field> {
    [Field(Sharing, Flag(true)), Field(Tls, Flag(tls))]
    + (if username == "" then [Field(AuthType, Str("None"))]
       else [Field(AuthType, Str("UsernamePassword")), Field(AuthUser, Str(username)), Field(AuthPassword, Str(password))])
  }

  function ExporterBody(tls: bool, username: string, password: string): Body { Built(ExporterFields(tls, username, password)) }

  /** The basic-auth model extends the authentication model, whose type is required. */
  function BasicAuthFields(username: string, password: string): seq<Field> {
    [Field(Type, Str("UsernamePassword")), Field(AccountName, Str(username)), Field(AccountPassword, Str(password))]
  }

  function BasicAuthBody(username: string, password: string): Body { Built(BasicAuthFields(username, password)) }

  function SyslogFields(server: string, port: int, protocol: string): seq<Field> {
    [Field(ServerName, Str(server)), Field(Port, Num(if port <= 0 then 514 else port)),
     Field(Transport, Str(if protocol == "" then "Udp" else protocol))]
  }

  function SyslogBody(server: string, port: int, protocol: string): Body { Built(SyslogFields(server, port, protocol)) }

  function CloudFields(access: string, secret: string, description: string): seq<Field> {
    [Field(Type, Str("Amazon")), Field(AccessKey, Str(access)), Field(SecretKey, Str(secret)), Field(Description, Str(description))]
  }

  function CloudBody(access: string, secret: string, description: string): Body { Built(CloudFields(access, secret, description)) }

  /** An endpoint gets a scheme unless it has one. */
  function NormalizeEndpoint(s: string): string {
    var t := Strings.Trim(s);
    if t == "" || Contains(t, "://") then t else "https://" + t
  }

  /** What is sent has a scheme or is empty; of the endpoints without blanks around them, exactly those are sent
      as given. */
  lemma EndpointHasScheme(s: string)
    ensures var r := NormalizeEndpoint(s);
      && (r == "" || Contains(r, "://"))
      && (Strings.Trim(s) == s ==> (r == s <==> s == "" || Contains(s, "://")))
  {
    var t := Strings.Trim(s);
    assert "https://"[5..8] == "://" && ("https://" + t)[5..8] == "https://"[5..8];
    assert ContainsAt("https://" + t, "://", 5);
  }

  function FolderFields(credentials: string, point: string, region: string, bucket: string, folder: string): seq<Field> {
    [Field(CredentialsId, Str(credentials)), Field(ServiceType, Str("S3Compatible")), Field(FolderName, Str(folder)),
     Field(ConnectionPoint, Str(NormalizeEndpoint(point))), Field(RegionId, Str(region)), Field(BucketName, Str(bucket))]
  }

  function FolderBody(credentials: string, point: string, region: string, bucket: string, folder: string): Body {
    Built(FolderFields(credentials, point, region, bucket, folder))
  }

  datatype ObjectStore = ObjectStore(
    name: string, compatible: bool, servicePoint: string, region: string, bucket: string, folder: string,
    accessKey: string, secretKey: string, immutableDays: int, mountNode: string, overwriteOwner: bool)

  function StoreFields(o: ObjectStore, credentials: string): seq<Field> {
    if o.compatible then
      [Field(Type, Str("S3Compatible")), Field(Name, Str(o.name)), Field(Description, Str("autodeploy object storage")),
       Field(AccountServicePoint, Str(NormalizeEndpoint(o.servicePoint))), Field(AccountRegion, Str(o.region)),
       Field(AccountCredentials, Str(credentials)), Field(AccountConnection, Str("Direct")),
       Field(BucketName, Str(o.bucket)), Field(BucketFolder, Str(o.folder))]
    else
      [Field(Type, Str("AmazonS3")), Field(Name, Str(o.name)), Field(Description, Str("autodeploy object storage")),
       Field(AccountCredentials, Str(credentials)), Field(AccountRegionType, Str("Global")), Field(AccountConnection, Str("Direct")),
       Field(BucketRegion, Str(o.region)), Field(BucketName, Str(o.bucket)), Field(BucketFolder, Str(o.folder))]
  }

  function ImmutableFields(days: int): seq<Field> {
    if days > 0 then [Field(ImmutableOn, Flag(true)), Field(ImmutableDays, Num(days)), Field(ImmutableMode, Str("RepositorySettings"))]
    else []
  }

  function MountFields(mount: string): seq<Field> {
    if mount == "" then []
    else [Field(MountType, Str("Linux")), Field(MountServerId, Str(mount)), Field(PowerNfs, Flag(false)), Field(WriteCache, Str("/tmp"))]
  }

  function ObjectStoreBody(o: ObjectStore, credentials: string, mount: string): Body {
    Built(StoreFields(o, credentials) + ImmutableFields(o.immutableDays) + MountFields(mount))
  }

  // ---- the sequences of calls ----

  /** Credentials for the secondary node, its certificate, the cluster. */
  function HaPosts(username: string, password: string, p: Node, q: Node, dns: string, endpoint: string, credentials: string, certificate: string): seq<Post> {
    [Post(PostCredentials, CredentialsBody(username, password, "HA secondary node")),
     Post(PostCertificate, CertificateBody(q.ip, credentials)),
     Post(PostCluster, ClusterBody(p.ip, q.ip, credentials, if dns == "" then p.name else dns, certificate, endpoint))]
  }

  function ExporterPosts(tls: bool, username: string, password: string): seq<Post> {
    [Post(PutExporter, ExporterBody(tls, username, password))]
    + (if username == "" then [] else [Post(PostExporterAuth, BasicAuthBody(username, password))])
  }

  function SyslogPosts(server: string, port: int, protocol: string): seq<Post> {
    if server == "" then [] else [Post(PutSyslog, SyslogBody(server, port, protocol))]
  }

  function ObjectStorePosts(o: ObjectStore, credentials: string, mount: string): seq<Post> {
    [Post(PostCloudCredentials, CloudBody(o.accessKey, o.secretKey, "autodeploy S3 " + o.name))]
    + (if o.compatible && o.folder != "" then [Post(PostFolder, FolderBody(credentials, o.servicePoint, o.region, o.bucket, o.folder))] else [])
    + [Post(PostObjectStore(o.overwriteOwner), ObjectStoreBody(o, credentials, mount))]
  }
}
