/** Definition before use, and single assignment, for every plan. */
module PlanSafety {
  import opened Topology
  import opened Bodies
  import opened Planner
  import opened PlanVariables

  predicate PlainNodes(nodes: seq<Node>) {
    forall k | 0 <= k < |nodes| :: Plain(nodes[k].ip) && Plain(nodes[k].name)
  }

  /** No string the user supplies holds a dollar sign. */
  predicate PlainSpec(s: Spec) {
    && PlainNodes(s.nodes)
    && Plain(Username(s)) && Plain(s.license) && Plain(s.exporterUser) && Plain(s.syslogServer) && Plain(Protocol(s))
    && Plain(s.clusterDns) && Plain(s.clusterEndpoint)
    && Plain("autodeploy S3 " + s.s3.name) && Plain(s.s3.servicePoint) && Plain(s.s3.region) && Plain(s.s3.bucket)
    && Plain(s.s3.folder) && Plain(s.s3.mountNode)
  }

  lemma {:induction false} SplitKeepsPlain(nodes: seq<Node>)
    requires PlainNodes(nodes)
    ensures PlainNodes(Vsas(nodes)) && PlainNodes(Vias(nodes))
  {
    if nodes != [] {
      SplitKeepsPlain(nodes[1..]);
    }
  }

  /** Closed parts compose. */
  lemma Chain(known: set<Var>, a: seq<Step>, da: seq<Var>, b: seq<Step>, db: seq<Var>)
    requires StepsClosed(known, a) && DefsOf(a) == da
    requires StepsClosed(known + Set(da), b) && DefsOf(b) == db
    ensures StepsClosed(known, a + b) && DefsOf(a + b) == da + db
  {
    PartThenRest(known, a, b);
  }

  /** With closed parts around it, a part decides whether the whole is closed. */
  lemma MiddleDecides(known: set<Var>, a: seq<Step>, b: seq<Step>, c: seq<Step>)
    requires StepsClosed(known, a)
    requires StepsClosed(known + Set(DefsOf(a)) + Set(DefsOf(b)), c)
    ensures StepsClosed(known, a + (b + c)) == StepsClosed(known + Set(DefsOf(a)), b)
    ensures DefsOf(a + (b + c)) == DefsOf(a) + (DefsOf(b) + DefsOf(c))
  {
    PartThenRest(known + Set(DefsOf(a)), b, c);
    PartThenRest(known, a, b + c);
  }

  // ---- license and mount server ----

  lemma LicenseClosed(s: Spec, known: set<Var>)
    requires PlainSpec(s) && BaseURL in known
    ensures StepsClosed(known, LicensePart(s)) && DefsOf(LicensePart(s)) == []
  {
    if s.license != "" {
      var l := LicensePart(s);
      assert known + Set([]) == known;
      LastRequest(known, l[1]);
      NextRequest(known, l[0], [l[1]]);
      assert l == [l[0]] + [l[1]];
    }
  }

  lemma FindServerClosed(name: string, v: Var, known: set<Var>)
    requires Plain(name) && BaseURL in known
    ensures StepsClosed(known, [FindServer(name, v)]) && DefsOf([FindServer(name, v)]) == [v]
  {
    LastRequest(known, FindServer(name, v));
  }

  lemma MountClosed(vsas: seq<Node>, vias: seq<Node>, known: set<Var>)
    requires PlainNodes(vsas) && BaseURL in known
    ensures StepsClosed(known, MountPart(vsas, vias)) && DefsOf(MountPart(vsas, vias)) == Listed(Mount(vsas, vias))
  {
    if Mount(vsas, vias).Some? {
      FindServerClosed(vsas[0].ip, HrMount, known);
    }
  }

  // ---- the nodes ----

  function ViaDefs(vias: seq<Node>, i: nat): seq<Var>
    requires i < |vias|
  {
    match DutyOf(vias[i].role)
    case HardenedRepo => [HostId(i), RepoId(i)]
    case VmwareProxy => [HostId(i)]
    case HostOnly => []
  }

  function AllViaDefs(vias: seq<Node>, n: nat): seq<Var>
    requires n <= |vias|
  {
    if n == 0 then [] else AllViaDefs(vias, n - 1) + ViaDefs(vias, n - 1)
  }

  lemma ViaStepClosed(s: Spec, vias: seq<Node>, i: nat, mount: Option<Var>, known: set<Var>)
    requires i < |vias| && Just(mount) <= known
    ensures StepsClosed(known, ViaStep(s, vias, i, mount)) && DefsOf(ViaStep(s, vias, i, mount)) == ViaDefs(vias, i)
  {
    var steps := ViaStep(s, vias, i, mount);
    if steps != [] {
      OneStep(known, steps[0]);
      assert HostId(i) in Set([HostId(i)]);
    }
  }

  /** What running some steps comes to: the variables they set, if they are sound. */
  datatype Effect = Unsound | Sets(defs: seq<Var>)

  ghost function EffectOf(known: set<Var>, steps: seq<Step>): Effect {
    if StepsClosed(known, steps) then Sets(DefsOf(steps)) else Unsound
  }

  lemma ThenNode(s: Spec, vias: seq<Node>, n: nat, mount: Option<Var>, known: set<Var>, before: seq<Step>, defs: seq<Var>)
    requires n < |vias| && Just(mount) <= known && EffectOf(known, before) == Sets(defs)
    ensures EffectOf(known, before + ViaStep(s, vias, n, mount)) == Sets(defs + ViaDefs(vias, n))
  {
    ViaStepClosed(s, vias, n, mount, known + Set(defs));
    Chain(known, before, defs, ViaStep(s, vias, n, mount), ViaDefs(vias, n));
  }

  lemma ViaPartClosed(s: Spec, vias: seq<Node>, mount: Option<Var>, known: set<Var>)
    requires Just(mount) <= known
    ensures EffectOf(known, ViaPart(s, vias, |vias|, mount)) == Sets(AllViaDefs(vias, |vias|))
  {
    var steps, defs := [], [];
    Nothing(known, steps);
    for n := 0 to |vias|
      invariant steps == ViaPart(s, vias, n, mount) && defs == AllViaDefs(vias, n)
      invariant EffectOf(known, steps) == Sets(defs)
    {
      ThenNode(s, vias, n, mount, known, steps, defs);
      steps, defs := steps + ViaStep(s, vias, n, mount), defs + ViaDefs(vias, n);
    }
  }

  lemma Nothing(known: set<Var>, steps: seq<Step>)
    requires steps == []
    ensures EffectOf(known, steps) == Sets([])
  {
  }

  predicate Distinct(defs: seq<Var>) {
    forall i, j | 0 <= i < j < |defs| :: defs[i] != defs[j]
  }

  lemma DistinctConcat(a: seq<Var>, b: seq<Var>)
    requires Distinct(a) && Distinct(b) && forall v | v in a :: v !in b
    ensures Distinct(a + b)
  {
    assert forall i | 0 <= i < |a| :: a[i] in a;
    assert forall i | 0 <= i < |b| :: b[i] in b;
  }

  predicate ViaVar(v: Var, n: nat) { (v.HostId? || v.RepoId?) && v.i < n }

  /** Each node's variables are set once, and a hardened repository's is set, but no other repository's. */
  lemma {:induction false} ViaDefsDistinct(vias: seq<Node>, n: nat)
    requires n <= |vias|
    ensures Distinct(AllViaDefs(vias, n))
    ensures forall v | v in AllViaDefs(vias, n) :: ViaVar(v, n)
    ensures forall i: nat | i < n :: RepoId(i) in AllViaDefs(vias, n) <==> DutyOf(vias[i].role).HardenedRepo?
  {
    if n > 0 {
      ViaDefsDistinct(vias, n - 1);
      assert forall v | v in ViaDefs(vias, n - 1) :: ViaVar(v, n) && v.i == n - 1;
      DistinctConcat(AllViaDefs(vias, n - 1), ViaDefs(vias, n - 1));
    }
  }

  // ---- the cluster ----

  function HaDefs(vsas: seq<Node>): seq<Var> {
    if |vsas| < 2 then [] else [DefaultRepo, HaCred, HaCert, HaSession]
  }

  lemma RedirectClosed(target: Var, known: set<Var>)
    requires BaseURL in known
    ensures StepsClosed(known, [Redirect(target)]) == (target in known)
    ensures DefsOf([Redirect(target)]) == []
  {
    var p := Phases(Redirect(target));
    assert AllPhases([Redirect(target)]) == p + AllPhases([]) == p;
    assert p[1..] == [];
    assert Defs(p) == [] + Defs([]);
    assert Filled(known, Ref(target)) == (target in known);
    assert [Ref(target)][0] == Ref(target);
    assert AllFilled(known, p[0].texts) == (target in known);
    assert Closed(known + Set(p[0].defs), p[1..]);
  }

  /** Credentials, certificate, cluster: each reads what the ones before it captured. */
  lemma MembersClosed(s: Spec, vsas: seq<Node>, vias: seq<Node>, known: set<Var>)
    requires PlainSpec(s) && PlainNodes(vsas) && |vsas| >= 2 && {BaseURL, Password} <= known
    ensures StepsClosed(known, HaPart(s, vsas, vias)[3..]) && DefsOf(HaPart(s, vsas, vias)[3..]) == [HaCred, HaCert, HaSession]
  {
    var h := HaPart(s, vsas, vias);
    var k1 := known + Set([HaCred]);
    var k2 := k1 + Set([HaCert]);
    LastRequest(k2, h[5]);
    NextRequest(k1, h[4], [h[5]]);
    NextRequest(known, h[3], [h[4]] + [h[5]]);
    assert h[3..] == [h[3]] + ([h[4]] + [h[5]]);
  }

  /** The default repository is found, then deleted by the captured identifier. */
  lemma RemovalClosed(s: Spec, vsas: seq<Node>, vias: seq<Node>, known: set<Var>, rest: seq<Step>)
    requires |vsas| >= 2 && BaseURL in known && StepsClosed(known + Set([DefaultRepo]), rest)
    ensures var h := HaPart(s, vsas, vias);
      StepsClosed(known, [h[1]] + ([h[2]] + rest)) && DefsOf([h[1]] + ([h[2]] + rest)) == [DefaultRepo] + DefsOf(rest)
  {
    var h := HaPart(s, vsas, vias);
    var k1 := known + Set([DefaultRepo]);
    assert k1 + Set([]) == k1;
    NextRequest(k1, h[2], rest);
    NextRequest(known, h[1], [h[2]] + rest);
  }

  /** The cluster part is sound exactly when its redirection target is. */
  lemma HaClosed(s: Spec, vsas: seq<Node>, vias: seq<Node>, known: set<Var>)
    requires PlainSpec(s) && PlainNodes(vsas) && |vsas| >= 2 && {BaseURL, Password} <= known
    ensures StepsClosed(known, HaPart(s, vsas, vias)) == (Target(vias) in known)
    ensures DefsOf(HaPart(s, vsas, vias)) == HaDefs(vsas)
  {
    var h := HaPart(s, vsas, vias);
    MembersClosed(s, vsas, vias, known + Set([DefaultRepo]));
    RemovalClosed(s, vsas, vias, known, h[3..]);
    RedirectClosed(Target(vias), known);
    assert known + Set([]) == known;
    var rest := [h[1]] + ([h[2]] + h[3..]);
    PartThenRest(known, [h[0]], rest);
    assert h == [h[0]] + rest;
  }

  // ---- advanced settings ----

  lemma ExporterClosed(s: Spec, known: set<Var>)
    requires PlainSpec(s) && Preamble(s) <= known
    ensures StepsClosed(known, ExporterPart(s)) && DefsOf(ExporterPart(s)) == []
  {
    if s.exporter {
      var e := ExporterPart(s);
      if s.exporterUser == "" {
        LastRequest(known, e[0]);
      } else {
        LoginClosed(s, known, e[1]);
        NextRequest(known, e[0], [e[1]]);
        assert e == [e[0]] + [e[1]];
      }
    }
  }

  lemma LoginClosed(s: Spec, known: set<Var>, login: Step)
    requires PlainSpec(s) && Preamble(s) <= known && s.exporter && s.exporterUser != "" && login == ExporterPart(s)[1]
    ensures known + Set([]) == known && StepsClosed(known, [login]) && DefsOf([login]) == []
  {
    LastRequest(known, login);
  }

  lemma SyslogClosed(s: Spec, known: set<Var>)
    requires PlainSpec(s) && BaseURL in known
    ensures StepsClosed(known, SyslogPart(s)) && DefsOf(SyslogPart(s)) == []
  {
    if s.syslogServer != "" {
      LastRequest(known, SyslogPart(s)[0]);
    }
  }

  lemma RetryHostClosed(s: Spec, vsas: seq<Node>, known: set<Var>)
    requires PlainSpec(s) && PlainNodes(vsas) && BaseURL in known
    ensures StepsClosed(known, RetryHostPart(s.s3, vsas)) && DefsOf(RetryHostPart(s.s3, vsas)) == Listed(RetryHost(s.s3, vsas))
  {
    if s.s3.mountNode != "" {
      FindServerClosed(s.s3.mountNode, MountServer, known);
    } else if vsas != [] && vsas[0].ip != "" {
      FindServerClosed(vsas[0].ip, S3Host, known);
    }
  }

  lemma FolderClosed(s: Spec, known: set<Var>)
    requires PlainSpec(s) && {BaseURL, S3Cred} <= known
    ensures StepsClosed(known, FolderPart(s.s3)) && DefsOf(FolderPart(s.s3)) == []
  {
    if s.s3.compatible && s.s3.folder != "" {
      LastRequest(known, FolderPart(s.s3)[0]);
    }
  }

  lemma RepositoryItemsReady(s: Spec, known: set<Var>)
    requires PlainSpec(s) && S3Cred in known && (s.s3.mountNode != "" ==> MountServer in known)
    ensures Ready(known, Texts(RepositoryItems(s.s3)))
  {
    assert forall k | 0 <= k < |s.s3.name| :: ("autodeploy S3 " + s.s3.name)[14 + k] == s.s3.name[k];
  }

  function AddDefs(s3: S3, vsas: seq<Node>): seq<Var> {
    if RetryHost(s3, vsas).None? then [S3Session] else []
  }

  lemma AddS3Closed(s: Spec, vsas: seq<Node>, step: Step, known: set<Var>)
    requires PlainSpec(s) && {BaseURL, S3Cred} + Just(RetryHost(s.s3, vsas)) <= known
    requires step.AddS3? && step.body == RepositoryItems(s.s3) && step.session == Some(S3Session) && step.retryHost == RetryHost(s.s3, vsas)
    ensures StepsClosed(known, [step]) && DefsOf([step]) == AddDefs(s.s3, vsas)
  {
    RepositoryItemsReady(s, known);
    ReadyIsFilled(known, Texts(step.body));
    OneStep(known, step);
    assert S3Session in Set([S3Session]);
  }

  function S3Defs(s: Spec, vsas: seq<Node>): seq<Var> {
    if s.s3.enabled then [S3Cred] + (Listed(RetryHost(s.s3, vsas)) + AddDefs(s.s3, vsas)) else []
  }

  /** The folder, the retry host and the repository, once the credentials are known. */
  lemma RepositoryClosed(s: Spec, vsas: seq<Node>, last: Step, known: set<Var>)
    requires PlainSpec(s) && PlainNodes(vsas) && {BaseURL, S3Cred} <= known
    requires last.AddS3? && last.body == RepositoryItems(s.s3) && last.session == Some(S3Session) && last.retryHost == RetryHost(s.s3, vsas)
    ensures var rest := FolderPart(s.s3) + (RetryHostPart(s.s3, vsas) + [last]);
      StepsClosed(known, rest) && DefsOf(rest) == Listed(RetryHost(s.s3, vsas)) + AddDefs(s.s3, vsas)
  {
    RetryHostClosed(s, vsas, known);
    AddS3Closed(s, vsas, last, known + Set(Listed(RetryHost(s.s3, vsas))));
    PartThenRest(known, RetryHostPart(s.s3, vsas), [last]);
    FolderClosed(s, known);
    assert known + Set([]) == known;
    PartThenRest(known, FolderPart(s.s3), RetryHostPart(s.s3, vsas) + [last]);
  }

  lemma S3Closed(s: Spec, vsas: seq<Node>, known: set<Var>)
    requires PlainSpec(s) && PlainNodes(vsas) && Preamble(s) <= known
    ensures StepsClosed(known, S3Part(s, vsas)) && DefsOf(S3Part(s, vsas)) == S3Defs(s, vsas)
  {
    if s.s3.enabled {
      var all := S3Part(s, vsas);
      var cred, last := all[0], all[|all| - 1];
      var rest := FolderPart(s.s3) + (RetryHostPart(s.s3, vsas) + [last]);
      RepositoryClosed(s, vsas, last, known + Set([S3Cred]));
      NextRequest(known, cred, rest);
      assert all == [cred] + rest;
    }
  }

  // ---- the whole plan ----

  /** License, mount server and nodes: closed for every specification. */
  lemma WiringClosed(s: Spec, known: set<Var>) returns (part: seq<Step>)
    requires PlainSpec(s) && BaseURL in known
    ensures var vsas, vias := Vsas(s.nodes), Vias(s.nodes);
      && part == LicensePart(s) + MountPart(vsas, vias) + ViaPart(s, vias, |vias|, Mount(vsas, vias))
      && StepsClosed(known, part) && DefsOf(part) == Listed(Mount(vsas, vias)) + AllViaDefs(vias, |vias|)
  {
    var vsas, vias := Vsas(s.nodes), Vias(s.nodes);
    SplitKeepsPlain(s.nodes);
    var license, mount, via := LicensePart(s), MountPart(vsas, vias), ViaPart(s, vias, |vias|, Mount(vsas, vias));
    LicenseClosed(s, known);
    assert known + Set([]) == known;
    MountClosed(vsas, vias, known);
    PartThenRest(known, license, mount);
    var more := known + Set(DefsOf(license + mount));
    assert DefsOf(license + mount) == Listed(Mount(vsas, vias));
    ViaPartClosed(s, vias, Mount(vsas, vias), more);
    PartThenRest(known, license + mount, via);
    part := license + mount + via;
  }

  /** The settings after the cluster: closed for every specification. */
  lemma AdvancedClosed(s: Spec, known: set<Var>) returns (part: seq<Step>)
    requires PlainSpec(s) && Preamble(s) <= known
    ensures part == ExporterPart(s) + (SyslogPart(s) + S3Part(s, Vsas(s.nodes)))
    ensures StepsClosed(known, part) && DefsOf(part) == S3Defs(s, Vsas(s.nodes))
  {
    var vsas := Vsas(s.nodes);
    SplitKeepsPlain(s.nodes);
    assert known + Set([]) == known;
    S3Closed(s, vsas, known);
    SyslogClosed(s, known);
    PartThenRest(known, SyslogPart(s), S3Part(s, vsas));
    ExporterClosed(s, known);
    PartThenRest(known, ExporterPart(s), SyslogPart(s) + S3Part(s, vsas));
    part := ExporterPart(s) + (SyslogPart(s) + S3Part(s, vsas));
  }

  lemma Regroup(a: seq<Step>, b: seq<Step>, c: seq<Step>, d: seq<Step>, e: seq<Step>, f: seq<Step>, g: seq<Step>)
    ensures a + b + c + d + e + f + g == (a + b + c) + (d + (e + (f + g)))
  {
    assert a + b + c + d + e + f + g == a + b + c + d + (e + (f + g));
  }

  /** The plan's parts are sound exactly when the cluster part's target is. */
  lemma PlanDecided(s: Spec)
    requires PlainSpec(s)
    ensures var vsas, vias, known := Vsas(s.nodes), Vias(s.nodes), Preamble(s);
      var defs := Listed(Mount(vsas, vias)) + AllViaDefs(vias, |vias|);
      && StepsClosed(known, PlanOf(s)) == StepsClosed(known + Set(defs), HaPart(s, vsas, vias))
      && DefsOf(PlanOf(s)) == defs + (DefsOf(HaPart(s, vsas, vias)) + S3Defs(s, vsas))
  {
    var vsas, vias, known := Vsas(s.nodes), Vias(s.nodes), Preamble(s);
    var wiring := WiringClosed(s, known);
    var ha := HaPart(s, vsas, vias);
    var advanced := AdvancedClosed(s, known + Set(DefsOf(wiring)) + Set(DefsOf(ha)));
    MiddleDecides(known, wiring, ha, advanced);
    Regroup(LicensePart(s), MountPart(vsas, vias), ViaPart(s, vias, |vias|, Mount(vsas, vias)), ha, ExporterPart(s), SyslogPart(s), S3Part(s, vsas));
  }

  /** Every variable a plan reads is set by the preamble or an earlier response, exactly when a plan for two
      or more VSAs has a hardened repository to move the configuration backup to. */
  lemma DefinedBeforeUse(s: Spec)
    requires PlainSpec(s)
    ensures StepsClosed(Preamble(s), PlanOf(s)) <==> (|Vsas(s.nodes)| >= 2 ==> HasHR(Vias(s.nodes)))
  {
    var vsas, vias := Vsas(s.nodes), Vias(s.nodes);
    PlanDecided(s);
    SplitKeepsPlain(s.nodes);
    var defs := Listed(Mount(vsas, vias)) + AllViaDefs(vias, |vias|);
    if |vsas| >= 2 {
      HaClosed(s, vsas, vias, Preamble(s) + Set(defs));
      TargetKnown(s, Preamble(s) + Set(defs), defs);
    }
  }

  /** The redirection target is set exactly when there is a hardened repository. */
  lemma TargetKnown(s: Spec, known: set<Var>, defs: seq<Var>)
    requires defs == Listed(Mount(Vsas(s.nodes), Vias(s.nodes))) + AllViaDefs(Vias(s.nodes), |Vias(s.nodes)|)
    requires known == Preamble(s) + Set(defs)
    ensures Target(Vias(s.nodes)) in known <==> HasHR(Vias(s.nodes))
  {
    var vias := Vias(s.nodes);
    ViaDefsDistinct(vias, |vias|);
    var target := Target(vias);
    assert target in known <==> target in AllViaDefs(vias, |vias|);
    assert FirstHR(vias) >= 0 ==> DutyOf(vias[FirstHR(vias)].role).HardenedRepo?;
    assert target in AllViaDefs(vias, |vias|) ==> target.i < |vias|;
  }

  lemma DefsOfHa(s: Spec)
    requires PlainSpec(s)
    ensures DefsOf(HaPart(s, Vsas(s.nodes), Vias(s.nodes))) == HaDefs(Vsas(s.nodes))
  {
    if |Vsas(s.nodes)| >= 2 {
      SplitKeepsPlain(s.nodes);
      HaClosed(s, Vsas(s.nodes), Vias(s.nodes), Preamble(s));
    }
  }

  /** The part of the plan a captured variable belongs to. */
  function Part(v: Var): nat {
    match v
    case HrMount => 1
    case HostId(_) => 2
    case RepoId(_) => 2
    case DefaultRepo => 3
    case HaCred => 3
    case HaCert => 3
    case HaSession => 3
    case S3Cred => 4
    case MountServer => 4
    case S3Host => 4
    case S3Session => 4
    case _ => 0
  }

  predicate AllIn(defs: seq<Var>, part: nat) { forall k | 0 <= k < |defs| :: Part(defs[k]) == part }

  lemma PartsAreDistinct(a: seq<Var>, b: seq<Var>, c: seq<Var>, d: seq<Var>)
    requires AllIn(a, 1) && AllIn(b, 2) && AllIn(c, 3) && AllIn(d, 4)
    requires Distinct(a) && Distinct(b) && Distinct(c) && Distinct(d)
    ensures Distinct((a + b) + (c + d))
    ensures forall v | v in (a + b) + (c + d) :: Part(v) > 0
  {
    DistinctConcat(c, d);
    DistinctConcat(a, b);
    DistinctConcat(a + b, c + d);
  }

  lemma S3PartIsDistinct(s: Spec, vsas: seq<Node>)
    ensures AllIn(S3Defs(s, vsas), 4) && Distinct(S3Defs(s, vsas))
  {
  }

  /** All captures of a plan, in order. */
  function Captures(s: Spec): seq<Var> {
    var vsas, vias := Vsas(s.nodes), Vias(s.nodes);
    (Listed(Mount(vsas, vias)) + AllViaDefs(vias, |vias|)) + (HaDefs(vsas) + S3Defs(s, vsas))
  }

  lemma CapturesAreDistinct(s: Spec)
    ensures Distinct(Captures(s)) && forall v | v in Captures(s) :: Part(v) > 0
  {
    var vsas, vias := Vsas(s.nodes), Vias(s.nodes);
    var b := AllViaDefs(vias, |vias|);
    ViaDefsDistinct(vias, |vias|);
    AllViaIn(b, |vias|);
    S3PartIsDistinct(s, vsas);
    PartsAreDistinct(Listed(Mount(vsas, vias)), b, HaDefs(vsas), S3Defs(s, vsas));
  }

  lemma AllViaIn(defs: seq<Var>, n: nat)
    requires forall v | v in defs :: ViaVar(v, n)
    ensures AllIn(defs, 2)
  {
    assert forall k | 0 <= k < |defs| :: defs[k] in defs;
  }

  /** Each variable is set once, and none of them is set by the preamble. */
  lemma SetOnce(s: Spec)
    requires PlainSpec(s)
    ensures DefsOf(PlanOf(s)) == Captures(s)
    ensures Distinct(Captures(s))
    ensures forall v | v in Captures(s) :: v !in Preamble(s)
  {
    CapturesAreDistinct(s);
    assert forall v | v in Preamble(s) :: Part(v) == 0;
    PlanDecided(s);
    DefsOfHa(s);
  }

  /** Captured variables have names of their own, in particular each node's host and repository. */
  lemma NamesAreDistinct(s: Spec, j: nat, k: nat)
    requires j < k < |Captures(s)|
    ensures Spell(Captures(s)[j]) != Spell(Captures(s)[k])
  {
    CapturesAreDistinct(s);
    SpellIsInjective(Captures(s)[j], Captures(s)[k]);
  }
}
