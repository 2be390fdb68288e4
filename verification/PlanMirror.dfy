/** The bodies of the plan's calls against those the live client sends. The planner says that its bodies mirror
    the client's: here is exactly when. */
module PlanMirror {
  import opened Topology
  import opened Vbr
  import opened Bodies
  import opened Planner
  import Wire

  // ---- what the script sends ----

  /** A value once the script's variables have theirs. */
  function ValueOf(t: Text, val: Var -> string): Json {
    match t
    case Fixed(s) => Str(s)
    case Given(s) => Str(s)
    case Ref(v) => Str(val(v))
    case Amount(n) => Num(n)
    case Truth(b) => Flag(b)
  }

  function Fields(body: seq<Item>, val: Var -> string): seq<Field> {
    seq(|body|, i requires 0 <= i < |body| => Field(body[i].key, ValueOf(body[i].text, val)))
  }

  function Resolve(body: seq<Item>, val: Var -> string): Body { Built(Fields(body, val)) }

  predicate HasBody(call: Endpoint) {
    !call.GetLicense? && !call.FindManagedServer? && !call.FindDefaultRepository? && !call.DeleteRepository?
  }

  function PostsOf(step: Step, val: Var -> string): seq<Post> {
    match step
    case Request(call, _, body, _, _) => if HasBody(call) then [Post(call, Resolve(body, val))] else []
    case AddS3(overwrite, body, _, _) => [Post(PostObjectStore(overwrite), Resolve(body, val))]
    case _ => []
  }

  /** The calls with a body, in order. */
  function PlanPosts(steps: seq<Step>, val: Var -> string): seq<Post> {
    if steps == [] then [] else PostsOf(steps[0], val) + PlanPosts(steps[1..], val)
  }

  lemma {:induction false} PostsConcat(a: seq<Step>, b: seq<Step>, val: Var -> string)
    ensures PlanPosts(a + b, val) == PlanPosts(a, val) + PlanPosts(b, val)
    decreases |a|
  {
    if a == [] {
      assert a + b == b;
    } else {
      assert (a + b)[1..] == a[1..] + b;
      PostsConcat(a[1..], b, val);
    }
  }

  lemma PostsOne(step: Step, val: Var -> string)
    ensures PlanPosts([step], val) == PostsOf(step, val)
  {
    assert [step][1..] == [];
    assert PlanPosts([], val) == [];
  }

  // ---- one configuration for both ----

  predicate SameStore(s: S3, o: ObjectStore, val: Var -> string) {
    o == ObjectStore(s.name, s.compatible, s.servicePoint, s.region, s.bucket, s.folder, val(S3AccessKey), val(S3SecretKey),
                     s.immutableDays, s.mountNode, s.overwriteOwner)
  }

  /** The specification and the wiring's settings say the same. */
  predicate SameSettings(s: Spec, w: Wire.Settings, val: Var -> string) {
    && s.username == w.username && val(Password) == w.password && s.license == w.license && s.path == w.path && s.days == w.days
    && s.clusterDns == w.clusterDns && s.clusterEndpoint == w.clusterEndpoint
    && s.exporter == w.exporter && s.exporterTls == w.exporterTls && s.exporterUser == w.exporterUser
    && val(ExporterPass) == w.exporterPassword
    && s.syslogServer == w.syslogServer && s.syslogPort == w.syslogPort && s.syslogProtocol == w.syslogProtocol
    && (s.s3.enabled <==> w.stores != []) && (w.stores != [] ==> SameStore(s.s3, w.stores[0], val))
  }

  /** Planner and wiring fill in the same defaults. */
  lemma DefaultsAgree(s: Spec, w: Wire.Settings, val: Var -> string)
    requires SameSettings(s, w, val)
    ensures RepoPath(s) == Wire.PathOf(w) && RepoDays(s) == Wire.DaysOf(w) && Username(s) == Wire.UserOf(w)
  {
  }

  // ---- license ----

  lemma LicenseMirrors(s: Spec, w: Wire.Settings, val: Var -> string)
    requires SameSettings(s, w, val)
    ensures PlanPosts(LicensePart(s), val) == if w.license == "" then [] else [Post(InstallLicense, LicenseBody(w.license))]
  {
    if s.license != "" {
      var l := LicensePart(s);
      assert l == [l[0]] + [l[1]];
      PostsConcat([l[0]], [l[1]], val);
      PostsOne(l[0], val);
      PostsOne(l[1], val);
      assert Fields([Item(License, Given(s.license))], val) == [Field(License, Str(s.license))];
    }
  }

  // ---- the cluster ----

  lemma CredentialsMirror(s: Spec, w: Wire.Settings, val: Var -> string)
    requires SameSettings(s, w, val)
    ensures Resolve(CredentialsItems(s), val) == CredentialsBody(Wire.UserOf(w), w.password, "HA secondary node")
  {
    hide Built;
    assert Fields(CredentialsItems(s), val) == CredentialsFields(Wire.UserOf(w), w.password, "HA secondary node");
  }

  /** A certificate asked for without credentials is asked for without the key. */
  lemma CertificateMirrors(q: Node, val: Var -> string)
    ensures Resolve(CertificateItems(q), val) == CertificateBody(q.ip, val(HaCred)) <==> val(HaCred) != ""
  {
    hide Built;
    var mine, live := Fields(CertificateItems(q), val), CertificateFields(q.ip, val(HaCred));
    if val(HaCred) != "" {
      assert mine == live;
    } else {
      BuiltAt(mine, 2);
      NotBuilt(live, CredentialsId);
    }
  }

  lemma ClusterMirrors(s: Spec, w: Wire.Settings, val: Var -> string, p: Node, q: Node)
    requires SameSettings(s, w, val)
    ensures Resolve(ClusterItems(s, p, q), val)
         == ClusterBody(p.ip, q.ip, val(HaCred), if w.clusterDns == "" then p.name else w.clusterDns, val(HaCert), w.clusterEndpoint)
  {
    hide Built;
    assert Fields(ClusterItems(s, p, q), val)
        == ClusterFields(p.ip, q.ip, val(HaCred), if w.clusterDns == "" then p.name else w.clusterDns, val(HaCert), w.clusterEndpoint);
  }

  /** The cluster part sends what the live wiring sends: credentials, the secondary's certificate, the cluster. */
  lemma ClusterPartMirrors(s: Spec, w: Wire.Settings, val: Var -> string, vsas: seq<Node>, vias: seq<Node>)
    requires SameSettings(s, w, val) && |vsas| >= 2
    ensures PlanPosts(HaPart(s, vsas, vias), val)
         == HaPosts(Wire.UserOf(w), w.password, vsas[0], vsas[1], w.clusterDns, w.clusterEndpoint, val(HaCred), val(HaCert))
        <==> val(HaCred) != ""
  {
    hide Resolve, CredentialsBody, CertificateBody, ClusterBody;
    var h := HaPart(s, vsas, vias);
    LastThreePost(h, val);
    CredentialsMirror(s, w, val);
    CertificateMirrors(vsas[1], val);
    ClusterMirrors(s, w, val, vsas[0], vsas[1]);
    var live := HaPosts(Wire.UserOf(w), w.password, vsas[0], vsas[1], w.clusterDns, w.clusterEndpoint, val(HaCred), val(HaCert));
    assert PlanPosts(h, val)[1].body == Resolve(CertificateItems(vsas[1]), val) && live[1].body == CertificateBody(vsas[1].ip, val(HaCred));
  }

  lemma LastThreePost(h: seq<Step>, val: Var -> string)
    requires |h| == 6 && (forall k | 0 <= k < 3 :: PostsOf(h[k], val) == [])
    ensures PlanPosts(h, val) == PostsOf(h[3], val) + PostsOf(h[4], val) + PostsOf(h[5], val)
  {
    hide PostsOf;
    assert h == [h[0]] + ([h[1]] + ([h[2]] + ([h[3]] + ([h[4]] + [h[5]]))));
    PostsConcat([h[0]], [h[1]] + ([h[2]] + ([h[3]] + ([h[4]] + [h[5]]))), val);
    PostsConcat([h[1]], [h[2]] + ([h[3]] + ([h[4]] + [h[5]])), val);
    PostsConcat([h[2]], [h[3]] + ([h[4]] + [h[5]]), val);
    PostsConcat([h[3]], [h[4]] + [h[5]], val);
    PostsConcat([h[4]], [h[5]], val);
    PostsOne(h[0], val);
    PostsOne(h[1], val);
    PostsOne(h[2], val);
    PostsOne(h[3], val);
    PostsOne(h[4], val);
    PostsOne(h[5], val);
  }

  // ---- node_exporter and syslog ----

  lemma ExporterMirrors(s: Spec, w: Wire.Settings, val: Var -> string)
    requires SameSettings(s, w, val)
    ensures Resolve(ExporterItems(s), val) == ExporterBody(w.exporterTls, w.exporterUser, w.exporterPassword)
  {
    hide Built;
    assert Fields(ExporterItems(s), val) == ExporterFields(w.exporterTls, w.exporterUser, w.exporterPassword);
  }

  /** The live client also sends the type of the authentication when it sets the basic-auth login, since it is
      required; the plan does not. So the two agree exactly when there is no such login to set. */
  lemma ExporterMirrorsExactly(s: Spec, w: Wire.Settings, val: Var -> string)
    requires SameSettings(s, w, val)
    ensures PlanPosts(ExporterPart(s), val) == Wire.ExporterPart(w) <==> !s.exporter || s.exporterUser == ""
    ensures |PlanPosts(ExporterPart(s), val)| == |Wire.ExporterPart(w)|
  {
    hide Resolve, ExporterBody, BasicAuthBody;
    ExporterMirrors(s, w, val);
    if s.exporter {
      var put := Send(PutExporter, ExporterItems(s));
      if s.exporterUser == "" {
        PostsOne(put, val);
      } else {
        var login := [Item(AccountName, Given(s.exporterUser)), Item(AccountPassword, Ref(ExporterPass))];
        var auth := Send(PostExporterAuth, login);
        assert ExporterPart(s) == [put] + [auth];
        PostsConcat([put], [auth], val);
        PostsOne(put, val);
        PostsOne(auth, val);
        LoginHasNoType(s.exporterUser, w.exporterPassword, login, val);
        assert PlanPosts(ExporterPart(s), val)[1].body == Resolve(login, val);
        assert Wire.ExporterPart(w)[1].body == BasicAuthBody(w.exporterUser, w.exporterPassword);
      }
    }
  }

  lemma LoginHasNoType(username: string, password: string, login: seq<Item>, val: Var -> string)
    requires |login| == 2 && login[0].key == AccountName && login[1].key == AccountPassword
    ensures Resolve(login, val) != BasicAuthBody(username, password)
  {
    hide Built;
    NotBuilt(Fields(login, val), Type);
    BuiltAt(BasicAuthFields(username, password), 0);
  }

  lemma SyslogMirrors(s: Spec, w: Wire.Settings, val: Var -> string)
    requires SameSettings(s, w, val)
    ensures PlanPosts(SyslogPart(s), val) == SyslogPosts(w.syslogServer, w.syslogPort, w.syslogProtocol)
  {
    hide Built;
    if s.syslogServer != "" {
      var step := SyslogPart(s)[0];
      assert SyslogPart(s) == [step];
      PostsOne(step, val);
      assert Fields(step.body, val) == SyslogFields(w.syslogServer, w.syslogPort, w.syslogProtocol);
    }
  }

  // ---- object storage ----

  /** The endpoint is written the way the live client would write it. */
  predicate EndpointAlike(s: S3) { s.compatible ==> NormalizeEndpoint(s.servicePoint) == s.servicePoint }

  /** Both pin the same mount server, or both none. */
  predicate MountAlike(s: S3, val: Var -> string, mount: string) {
    if s.mountNode == "" then mount == "" else mount != "" && val(MountServer) == mount
  }

  lemma FolderMirrorsExactly(s: S3, o: ObjectStore, val: Var -> string)
    requires SameStore(s, o, val) && s.compatible && s.folder != ""
    ensures |FolderPart(s)| == 1
    ensures PlanPosts(FolderPart(s), val) == [Post(PostFolder, FolderBody(val(S3Cred), o.servicePoint, o.region, o.bucket, o.folder))]
        <==> NormalizeEndpoint(s.servicePoint) == s.servicePoint
  {
    hide Built, NormalizeEndpoint;
    var step := FolderPart(s)[0];
    assert FolderPart(s) == [step];
    PostsOne(step, val);
    var mine, live := Fields(step.body, val), FolderFields(val(S3Cred), o.servicePoint, o.region, o.bucket, o.folder);
    BuiltAt(mine, 3);
    BuiltAt(live, 3);
    assert PlanPosts(FolderPart(s), val) == [Post(PostFolder, Built(mine))];
    if NormalizeEndpoint(s.servicePoint) == s.servicePoint {
      assert mine == live;
    }
  }

  lemma StoreFieldsMirror(s: S3, o: ObjectStore, val: Var -> string)
    requires SameStore(s, o, val)
    ensures var mine, live := Fields(StoreItems(s), val), StoreFields(o, val(S3Cred));
      && |mine| == |live| == 9 && (forall i | 0 <= i < 9 :: mine[i].key == live[i].key && (i != 3 || !s.compatible ==> mine[i] == live[i]))
      && (s.compatible ==> mine[3].value == Str(s.servicePoint) && live[3] == Field(AccountServicePoint, Str(NormalizeEndpoint(s.servicePoint))))
      && (forall i | 0 <= i < 9 :: IsStoreKey(live[i].key)) && (forall i, j | 0 <= i < j < 9 :: live[i].key != live[j].key)
  {
    hide NormalizeEndpoint;
  }

  predicate IsStoreKey(key: Key) {
    !key.MountServerId? && !key.MountType? && !key.PowerNfs? && !key.WriteCache? && !key.ImmutableOn? && !key.ImmutableDays? && !key.ImmutableMode?
  }

  lemma ImmutableMirrors(s: S3, val: Var -> string)
    ensures Fields(ImmutableItems(s), val) == ImmutableFields(s.immutableDays)
    ensures forall i | 0 <= i < |ImmutableFields(s.immutableDays)| :: !ImmutableFields(s.immutableDays)[i].key.MountServerId?
  {
  }

  lemma MountMirrors(s: S3, val: Var -> string, mount: string)
    ensures MountAlike(s, val, mount) ==> Fields(MountItems(s), val) == MountFields(mount)
    ensures s.mountNode != "" ==> |MountItems(s)| == 4 && Fields(MountItems(s), val)[0].key == MountType
    ensures s.mountNode != "" ==> Fields(MountItems(s), val)[1] == Field(MountServerId, Str(val(MountServer)))
    ensures mount != "" ==> |MountFields(mount)| == 4 && MountFields(mount)[0].key == MountType && MountFields(mount)[1] == Field(MountServerId, Str(mount))
    ensures s.mountNode == "" ==> MountItems(s) == []
    ensures mount == "" ==> MountFields(mount) == []
  {
  }

  /** A field after a part without its key. */
  lemma BuiltAfter(a: seq<Field>, b: seq<Field>, i: nat)
    requires i < |b| && (forall k | 0 <= k < |a| :: a[k].key != b[i].key) && (forall k | 0 <= k < i :: b[k].key != b[i].key)
    ensures b[i].key in Built(a + b) && Built(a + b)[b[i].key] == b[i].value
  {
    assert (a + b)[|a| + i] == b[i];
    BuiltAt(a + b, |a| + i);
  }

  lemma FieldsConcat(a: seq<Item>, b: seq<Item>, val: Var -> string)
    ensures Fields(a + b, val) == Fields(a, val) + Fields(b, val)
  {
  }

  /** The mount server a body shows. */
  lemma MountShown(store: seq<Field>, mount: seq<Field>, value: string)
    requires forall k | 0 <= k < |store| :: !store[k].key.MountServerId?
    requires mount == [] || (|mount| == 4 && mount[0].key == MountType && mount[1] == Field(MountServerId, Str(value)))
    ensures mount == [] ==> MountServerId !in Built(store + mount)
    ensures mount != [] ==> MountServerId in Built(store + mount) && Built(store + mount)[MountServerId] == Str(value)
  {
    if mount == [] {
      assert store + mount == store;
      NotBuilt(store, MountServerId);
    } else {
      BuiltAfter(store, mount, 1);
    }
  }

  lemma RepositoryMirrorsExactly(s: S3, o: ObjectStore, val: Var -> string, mount: string)
    requires SameStore(s, o, val)
    ensures Resolve(RepositoryItems(s), val) == ObjectStoreBody(o, val(S3Cred), mount) <==> EndpointAlike(s) && MountAlike(s, val, mount)
  {
    hide Built, NormalizeEndpoint, StoreItems, StoreFields, ImmutableItems, ImmutableFields, MountItems, MountFields, Fields;
    var a, x := Fields(StoreItems(s), val), StoreFields(o, val(S3Cred));
    var b, c, z := ImmutableFields(s.immutableDays), Fields(MountItems(s), val), MountFields(mount);
    FieldsConcat(StoreItems(s), ImmutableItems(s), val);
    FieldsConcat(StoreItems(s) + ImmutableItems(s), MountItems(s), val);
    StoreFieldsMirror(s, o, val);
    ImmutableMirrors(s, val);
    MountMirrors(s, val, mount);
    FieldsEmpty(MountItems(s), val);
    MountShown(a + b, c, val(MountServer));
    MountShown(x + b, z, mount);
    assert Resolve(RepositoryItems(s), val) == Built(a + b + c) && ObjectStoreBody(o, val(S3Cred), mount) == Built(x + b + z);
    EndpointShown(s, a, b + c);
    EndpointShown(s, x, b + z);
    assert a + b + c == a + (b + c) && x + b + z == x + (b + z);
    if EndpointAlike(s) {
      assert a == x;
    }
  }

  lemma FieldsEmpty(items: seq<Item>, val: Var -> string)
    ensures |Fields(items, val)| == |items|
  {
  }

  /** The endpoint a body shows. */
  lemma EndpointShown(s: S3, store: seq<Field>, rest: seq<Field>)
    requires |store| == 9 && (s.compatible ==> store[3].key == AccountServicePoint) && forall i, j | 0 <= i < j < 9 :: store[i].key != store[j].key
    ensures s.compatible ==> AccountServicePoint in Built(store + rest) && Built(store + rest)[AccountServicePoint] == store[3].value
  {
    if s.compatible {
      assert (store + rest)[3] == store[3];
      BuiltAt(store + rest, 3);
    }
  }

  /** The object-storage part sends what the live wiring sends exactly when the endpoint needs no rewriting and
      both pin the same mount server. */
  lemma StoreMirrorsExactly(s: Spec, o: ObjectStore, vsas: seq<Node>, val: Var -> string, mount: string)
    requires s.s3.enabled && SameStore(s.s3, o, val)
    ensures PlanPosts(S3Part(s, vsas), val) == ObjectStorePosts(o, val(S3Cred), mount) <==> EndpointAlike(s.s3) && MountAlike(s.s3, val, mount)
  {
    hide Resolve, CloudBody, FolderBody, ObjectStoreBody, NormalizeEndpoint, RepositoryItems;
    var all := S3Part(s, vsas);
    var first, folder, find, last := [all[0]], FolderPart(s.s3), RetryHostPart(s.s3, vsas), [all[|all| - 1]];
    assert all == first + folder + find + last;
    PostsConcat(first + folder + find, last, val);
    PostsConcat(first + folder, find, val);
    PostsConcat(first, folder, val);
    PostsOne(all[0], val);
    PostsOne(all[|all| - 1], val);
    FindingPostsNothing(s.s3, vsas, val);
    CloudMirrors(s.s3, o, val);
    RepositoryMirrorsExactly(s.s3, o, val, mount);
    var store := Post(PostObjectStore(o.overwriteOwner), ObjectStoreBody(o, val(S3Cred), mount));
    var sent := Post(PostObjectStore(s.s3.overwriteOwner), Resolve(RepositoryItems(s.s3), val));
    assert PlanPosts(last, val) == [sent] && (sent == store <==> EndpointAlike(s.s3) && MountAlike(s.s3, val, mount));
    if s.s3.compatible && s.s3.folder != "" {
      FolderMirrorsExactly(s.s3, o, val);
      PostsOne(folder[0], val);
      assert folder == [folder[0]];
      var middle := Post(PostFolder, FolderBody(val(S3Cred), o.servicePoint, o.region, o.bucket, o.folder));
      ThreePosts(PlanPosts(first, val), PlanPosts(folder, val), [sent], middle, store, PlanPosts(all, val));
    } else {
      assert PlanPosts(folder, val) == [];
      TwoPosts(PlanPosts(first, val), sent, store, PlanPosts(all, val));
    }
  }

  lemma ThreePosts(a: seq<Post>, b: seq<Post>, c: seq<Post>, y: Post, z: Post, all: seq<Post>)
    requires |a| == |b| == |c| == 1 && all == a + b + [] + c
    ensures all == a + [y] + [z] <==> b == [y] && c == [z]
  {
    assert all[1] == b[0] && all[2] == c[0];
  }

  lemma TwoPosts(a: seq<Post>, sent: Post, store: Post, all: seq<Post>)
    requires all == a + [] + [] + [sent]
    ensures all == a + [] + [store] <==> sent == store
  {
    assert all[|a|] == sent;
  }

  lemma FindingPostsNothing(s3: S3, vsas: seq<Node>, val: Var -> string)
    ensures PlanPosts(RetryHostPart(s3, vsas), val) == []
  {
    var p := RetryHostPart(s3, vsas);
    if p != [] {
      assert p == [p[0]];
      PostsOne(p[0], val);
    }
  }

  lemma CloudMirrors(s3: S3, o: ObjectStore, val: Var -> string)
    requires SameStore(s3, o, val)
    ensures var b := [Item(Type, Fixed("Amazon")), Item(AccessKey, Ref(S3AccessKey)), Item(SecretKey, Ref(S3SecretKey)),
                      Item(Description, Given("autodeploy S3 " + s3.name))];
      Resolve(b, val) == CloudBody(o.accessKey, o.secretKey, "autodeploy S3 " + o.name)
  {
    hide Built;
    var b := [Item(Type, Fixed("Amazon")), Item(AccessKey, Ref(S3AccessKey)), Item(SecretKey, Ref(S3SecretKey)),
              Item(Description, Given("autodeploy S3 " + s3.name))];
    assert Fields(b, val) == CloudFields(o.accessKey, o.secretKey, "autodeploy S3 " + o.name);
  }

  // ---- all advanced settings ----

  /** The plan's part after the cluster sends what the live wiring's ends with, exactly when no basic-auth login
      is set and the object store, if any, is alike. */
  lemma AdvancedMirrorsExactly(s: Spec, w: Wire.Settings, vsas: seq<Node>, val: Var -> string, got: Wire.Answers)
    requires SameSettings(s, w, val) && got.storeCredential == val(S3Cred)
    ensures PlanPosts(ExporterPart(s) + SyslogPart(s) + S3Part(s, vsas), val) == Wire.AdvancedPosts(w, got)
        <==> (!s.exporter || s.exporterUser == "") && (s.s3.enabled ==> EndpointAlike(s.s3) && MountAlike(s.s3, val, got.storeMount))
  {
    var a, b, c := ExporterPart(s), SyslogPart(s), S3Part(s, vsas);
    PostsConcat(a + b, c, val);
    PostsConcat(a, b, val);
    ExporterMirrorsExactly(s, w, val);
    SyslogMirrors(s, w, val);
    if s.s3.enabled {
      StoreMirrorsExactly(s, w.stores[0], vsas, val, got.storeMount);
    }
    SplitEqual(PlanPosts(a, val), PlanPosts(b, val), PlanPosts(c, val), Wire.ExporterPart(w), Wire.StorePart(w, got));
  }

  lemma SplitEqual(a: seq<Post>, b: seq<Post>, c: seq<Post>, x: seq<Post>, z: seq<Post>)
    requires |a| == |x|
    ensures a + b + c == x + b + z <==> a == x && c == z
  {
    if a + b + c == x + b + z {
      assert a == (a + b + c)[..|a|] && x == (x + b + z)[..|x|];
      assert c == (a + b + c)[|a + b|..] && z == (x + b + z)[|x + b|..];
    }
  }

  /** The planner looks the store's mount server up by the node's configured name, the wiring by that node's
      address: they find the same host exactly when the name is the address, or neither is registered. */
  lemma StoreMountsAgreeExactly(srv: Server, name: string, address: string)
    requires NONE !in srv.hosts
    ensures HostIdOf(srv, name) == HostIdOf(srv, address) <==> name == address || (!HostNamed(srv, name) && !HostNamed(srv, address))
  {
  }
}
