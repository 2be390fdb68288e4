/** What every step of the fan-out keeps, in every interleaving and across restarts. */
module FanOutInvariant {
  import opened Topology
  import opened Vbr
  import opened FanOut
  import Naming

  /** The nodes the wiring promises to handle: distinct addresses, distinct repository names. */
  ghost predicate GoodConfig(cfg: Config) {
    && (forall i, j | 0 <= i < j < |cfg.vias| :: cfg.vias[i].ip != cfg.vias[j].ip)
    && (forall i, j | 0 <= i < j < |cfg.vias| && DutyAt(cfg, i).HardenedRepo? && DutyAt(cfg, j).HardenedRepo? ::
          Naming.RepoName(cfg.vias, i) != Naming.RepoName(cfg.vias, j))
  }

  // ---- the server ----

  /** The host identifier h belongs to node w. */
  ghost predicate HostOf(cfg: Config, srv: Server, w: nat, h: Id)
    requires w < |cfg.vias|
  {
    h in srv.hosts && srv.hosts[h] == cfg.vias[w].ip
  }

  /** At most one host per node address, one repository per hardened name, one proxy per node host. */
  ghost predicate NoDuplicates(cfg: Config, srv: Server) {
    OneHostEach(cfg, srv) && OneRepoEach(cfg, srv) && OneProxyEach(cfg, srv)
  }

  ghost predicate OneHostEach(cfg: Config, srv: Server) {
    forall w, h, g | 0 <= w < |cfg.vias| && HostOf(cfg, srv, w, h) && HostOf(cfg, srv, w, g) :: h == g
  }

  ghost predicate OneRepoEach(cfg: Config, srv: Server) {
    forall w, r, q | 0 <= w < |cfg.vias| && DutyAt(cfg, w).HardenedRepo? && NamedRepo(cfg, srv, w, r) && NamedRepo(cfg, srv, w, q) ::
      r == q
  }

  ghost predicate OneProxyEach(cfg: Config, srv: Server) {
    forall w, h, p, q | 0 <= w < |cfg.vias| && HostOf(cfg, srv, w, h) && ProxyAt(srv, p, h) && ProxyAt(srv, q, h) :: p == q
  }

  ghost predicate NamedRepo(cfg: Config, srv: Server, w: nat, r: Id)
    requires w < |cfg.vias|
  {
    r in srv.repos && srv.repos[r].name == Naming.RepoName(cfg.vias, w)
  }

  ghost predicate ProxyAt(srv: Server, p: Id, h: Id) {
    p in srv.proxies && srv.proxies[p] == h
  }

  /** Every entry added since srv0 is one some node of the topology calls for and srv0 lacked. */
  ghost predicate OnlyWanted(cfg: Config, srv0: Server, srv: Server) {
    && (forall h | h in srv.hosts && h !in srv0.hosts :: exists w :: WantedHost(cfg, srv0, srv, w, h))
    && (forall r | r in srv.repos && r !in srv0.repos :: exists w :: WantedRepo(cfg, srv0, srv, w, r))
    && (forall p | p in srv.proxies && p !in srv0.proxies :: exists w :: WantedProxy(cfg, srv0, srv, w, p))
  }

  ghost predicate WantedHost(cfg: Config, srv0: Server, srv: Server, w: nat, h: Id) {
    w < |cfg.vias| && HostOf(cfg, srv, w, h) && !HostNamed(srv0, cfg.vias[w].ip)
  }

  ghost predicate WantedRepo(cfg: Config, srv0: Server, srv: Server, w: nat, r: Id) {
    && w < |cfg.vias| && DutyAt(cfg, w).HardenedRepo?
    && r in srv.repos && srv.repos[r] == RepoFor(cfg, w, srv.repos[r].host)
    && HostOf(cfg, srv, w, srv.repos[r].host)
    && !RepoNamed(srv0, Naming.RepoName(cfg.vias, w))
  }

  ghost predicate WantedProxy(cfg: Config, srv0: Server, srv: Server, w: nat, p: Id) {
    && w < |cfg.vias| && DutyAt(cfg, w).VmwareProxy?
    && p in srv.proxies && HostOf(cfg, srv, w, srv.proxies[p])
    && !ProxyOn(srv0, srv.proxies[p])
  }

  ghost predicate ServerInv(cfg: Config, srv0: Server, srv: Server) {
    && WellFormed(srv) && Extends(srv0, srv) && NoDuplicates(cfg, srv) && OnlyWanted(cfg, srv0, srv)
  }

  /** Where the wiring may start. */
  ghost predicate GoodStart(cfg: Config, srv0: Server) {
    GoodConfig(cfg) && WellFormed(srv0) && NoDuplicates(cfg, srv0)
  }

  // ---- a worker ----

  /** The repository or proxy the node asks for exists; h is the node's host. */
  ghost predicate Equipped(cfg: Config, srv: Server, w: nat, h: Id)
    requires w < |cfg.vias|
  {
    match DutyAt(cfg, w)
    case HardenedRepo => RepoNamed(srv, Naming.RepoName(cfg.vias, w))
    case VmwareProxy => ProxyOn(srv, h)
    case HostOnly => true
  }

  /** The node is fully registered. */
  ghost predicate NodeWired(cfg: Config, srv: Server, w: nat)
    requires w < |cfg.vias|
  {
    exists h :: HostOf(cfg, srv, w, h) && Equipped(cfg, srv, w, h)
  }

  /** A creation this worker may have in flight, and that nothing on the server duplicates. */
  ghost predicate Creatable(cfg: Config, srv: Server, w: nat, what: Creation)
    requires w < |cfg.vias|
  {
    || (what == NewHost(cfg.vias[w].ip) && !HostNamed(srv, cfg.vias[w].ip))
    || CreatableTarget(cfg, srv, w, what)
  }

  ghost predicate CreatableTarget(cfg: Config, srv: Server, w: nat, what: Creation)
    requires w < |cfg.vias|
  {
    && !DutyAt(cfg, w).HostOnly?
    && exists h :: HostOf(cfg, srv, w, h) && what == CreationFor(cfg, w, h) && !Equipped(cfg, srv, w, h)
  }

  ghost predicate TargetPc(cfg: Config, srv: Server, w: nat, h: Id)
    requires w < |cfg.vias|
  {
    HostOf(cfg, srv, w, h) && !DutyAt(cfg, w).HostOnly?
  }

  ghost predicate WorkerInv(cfg: Config, srv: Server, w: nat, pc: Pc, session: Session)
    requires w < |cfg.vias|
  {
    var ip := cfg.vias[w].ip;
    && (session.InFlight? ==> Creatable(cfg, srv, w, session.what))
    && match pc
       case Start => session.Idle?
       case Slot => session.Idle?
       case WaitUp => session.Idle? && ip != ""
       case FindHost => session.Idle? && ip != ""
       case AddHost => session.Idle? && ip != "" && !HostNamed(srv, ip)
       case AwaitHost =>
         ip != "" && !session.Idle? && (session.InFlight? ==> session.what == NewHost(ip)) && (session.Succeeded? ==> HostNamed(srv, ip))
       case ResolveHost => session.Idle? && ip != "" && HostNamed(srv, ip)
       case Target(h) => session.Idle? && TargetPc(cfg, srv, w, h)
       case Create(h, a) => session.Idle? && TargetPc(cfg, srv, w, h) && 1 <= a <= MAX_ATTEMPTS && !Equipped(cfg, srv, w, h)
       case Update(h, a) => session.Idle? && TargetPc(cfg, srv, w, h) && 1 <= a < MAX_ATTEMPTS && !Equipped(cfg, srv, w, h)
       case Await(h, a) =>
         && TargetPc(cfg, srv, w, h) && 1 <= a <= MAX_ATTEMPTS && !session.Idle?
         && (session.InFlight? ==> session.what == CreationFor(cfg, w, h)) && (session.Succeeded? ==> Equipped(cfg, srv, w, h))
       case ResolveRepo(h) => session.Idle? && HostOf(cfg, srv, w, h) && DutyAt(cfg, w).HardenedRepo? && Equipped(cfg, srv, w, h)
       case Record(h, r) =>
         session.Idle? && HostOf(cfg, srv, w, h) && DutyAt(cfg, w).HardenedRepo? && NamedRepo(cfg, srv, w, r)
       case Releasing(e) => (e.Wired? ==> NodeWired(cfg, srv, w)) && (e.Quit? ==> session.Idle?)
       case Ended(e) => (e.Wired? ==> NodeWired(cfg, srv, w)) && (e.Quit? ==> session.Idle?)
  }

  // ---- control: semaphore, error cell, results ----

  predicate Unwired(pc: Pc) {
    (pc.Releasing? || pc.Ended?) && pc.ending != Wired
  }

  ghost predicate ControlInv(cfg: Config, s: State)
    requires Shaped(cfg, s)
  {
    && s.sem == Holders(s.pcs) <= MAX_PARALLEL
    && |s.firstErr| <= 1
    && (s.firstErr != [] ==> s.done && s.firstErr[0] < |s.pcs|)
    && (s.callerDone ==> s.done)
    && (s.done ==> s.callerDone || s.firstErr != [])
    && (forall w | 0 <= w < |s.pcs| && Unwired(s.pcs[w]) :: s.done)
    && (forall w | 0 <= w < |s.pcs| && (s.pcs[w] == Releasing(Failed) || s.pcs[w] == Ended(Failed)) :: s.firstErr != [])
  }

  ghost predicate Recordable(cfg: Config, s: State, w: nat)
    requires Shaped(cfg, s) && w < |s.pcs|
  {
    DutyAt(cfg, w).HardenedRepo? && (s.pcs[w] == Releasing(Wired) || s.pcs[w] == Ended(Wired))
  }

  /** The result list holds exactly the hardened-repository workers that finished, each with its
      repository. */
  ghost predicate ResultsInv(cfg: Config, s: State)
    requires Shaped(cfg, s)
  {
    && (forall k | 0 <= k < |s.results| ::
          && s.results[k].0 < |s.pcs| && Recordable(cfg, s, s.results[k].0)
          && NamedRepo(cfg, s.srv, s.results[k].0, s.results[k].1))
    && (forall w | 0 <= w < |s.pcs| && Recordable(cfg, s, w) :: exists k :: 0 <= k < |s.results| && s.results[k].0 == w)
  }

  ghost predicate Inv(cfg: Config, srv0: Server, s: State) {
    && Shaped(cfg, s)
    && ServerInv(cfg, srv0, s.srv)
    && (forall w | 0 <= w < |s.pcs| :: WorkerInv(cfg, s.srv, w, s.pcs[w], s.sessions[w]))
    && ControlInv(cfg, s)
    && ResultsInv(cfg, s)
  }

  // ---- counting slots ----

  lemma {:induction false} HoldersUpdate(pcs: seq<Pc>, w: nat, pc: Pc)
    requires w < |pcs|
    ensures Holders(pcs[w := pc]) == Holders(pcs) - (if Holds(pcs[w]) then 1 else 0) + (if Holds(pc) then 1 else 0)
  {
    if w == 0 {
      assert pcs[w := pc][1..] == pcs[1..];
    } else {
      assert pcs[w := pc][1..] == pcs[1..][w - 1 := pc];
      HoldersUpdate(pcs[1..], w - 1, pc);
    }
  }

  lemma {:induction false} HoldersOfFresh(n: nat)
    ensures Holders(seq(n, _ => Start)) == 0
  {
    if n > 0 {
      assert seq(n, _ => Start)[1..] == seq(n - 1, _ => Start);
      HoldersOfFresh(n - 1);
    }
  }

  // ---- the server's half of a step ----

  /** A landing creation keeps the server's invariant. */
  lemma LandKeepsServer(cfg: Config, srv0: Server, srv: Server, w: nat, what: Creation, id: Id)
    requires GoodStart(cfg, srv0) && ServerInv(cfg, srv0, srv) && w < |cfg.vias|
    requires Creatable(cfg, srv, w, what) && Fresh(srv, id)
    ensures ServerInv(cfg, srv0, Created(srv, what, id))
  {
    var t := Created(srv, what, id);
    LandGrows(cfg, srv, w, what, id);
    assert Extends(srv0, t);
    match what
    case NewHost(_) =>
      HostIsWanted(cfg, srv0, srv, w, id);
      WantedStay(cfg, srv0, srv, t);
      HostKeepsUnique(cfg, srv, w, id);
    case NewRepo(_) =>
      RepoIsWanted(cfg, srv0, srv, w, what, id);
      WantedStay(cfg, srv0, srv, t);
      RepoKeepsUnique(cfg, srv, w, what, id);
    case NewProxy(_) =>
      ProxyIsWanted(cfg, srv0, srv, w, what, id);
      WantedStay(cfg, srv0, srv, t);
      ProxyKeepsUnique(cfg, srv, w, what, id);
  }

  lemma LandGrows(cfg: Config, srv: Server, w: nat, what: Creation, id: Id)
    requires WellFormed(srv) && w < |cfg.vias| && Creatable(cfg, srv, w, what) && Fresh(srv, id)
    ensures WellFormed(Created(srv, what, id)) && Extends(srv, Created(srv, what, id))
  {
  }

  /** Entries already called for stay so when the server grows by entries that are called for. */
  lemma WantedStay(cfg: Config, srv0: Server, srv: Server, t: Server)
    requires Extends(srv, t) && OnlyWanted(cfg, srv0, srv) && WellFormed(srv)
    requires forall h | h in t.hosts && h !in srv.hosts :: exists v :: WantedHost(cfg, srv0, t, v, h)
    requires forall r | r in t.repos && r !in srv.repos :: exists v :: WantedRepo(cfg, srv0, t, v, r)
    requires forall p | p in t.proxies && p !in srv.proxies :: exists v :: WantedProxy(cfg, srv0, t, v, p)
    ensures OnlyWanted(cfg, srv0, t)
  {
    HostsStayWanted(cfg, srv0, srv, t);
    ReposStayWanted(cfg, srv0, srv, t);
    ProxiesStayWanted(cfg, srv0, srv, t);
  }

  lemma HostsStayWanted(cfg: Config, srv0: Server, srv: Server, t: Server)
    requires Extends(srv, t) && OnlyWanted(cfg, srv0, srv)
    ensures forall h | h in srv.hosts && h !in srv0.hosts :: exists v :: WantedHost(cfg, srv0, t, v, h)
  {
    forall h | h in srv.hosts && h !in srv0.hosts ensures exists v :: WantedHost(cfg, srv0, t, v, h) {
      var v :| WantedHost(cfg, srv0, srv, v, h);
      assert WantedHost(cfg, srv0, t, v, h);
    }
  }

  lemma ReposStayWanted(cfg: Config, srv0: Server, srv: Server, t: Server)
    requires Extends(srv, t) && OnlyWanted(cfg, srv0, srv)
    ensures forall r | r in srv.repos && r !in srv0.repos :: exists v :: WantedRepo(cfg, srv0, t, v, r)
  {
    forall r | r in srv.repos && r !in srv0.repos ensures exists v :: WantedRepo(cfg, srv0, t, v, r) {
      var v :| WantedRepo(cfg, srv0, srv, v, r);
      assert WantedRepo(cfg, srv0, t, v, r);
    }
  }

  lemma ProxiesStayWanted(cfg: Config, srv0: Server, srv: Server, t: Server)
    requires Extends(srv, t) && OnlyWanted(cfg, srv0, srv) && WellFormed(srv)
    ensures forall p | p in srv.proxies && p !in srv0.proxies :: exists v :: WantedProxy(cfg, srv0, t, v, p)
  {
    forall p | p in srv.proxies && p !in srv0.proxies ensures exists v :: WantedProxy(cfg, srv0, t, v, p) {
      var v :| WantedProxy(cfg, srv0, srv, v, p);
      assert WantedProxy(cfg, srv0, t, v, p);
    }
  }

  lemma HostIsWanted(cfg: Config, srv0: Server, srv: Server, w: nat, id: Id)
    requires Extends(srv0, srv) && w < |cfg.vias| && !HostNamed(srv, cfg.vias[w].ip)
    ensures WantedHost(cfg, srv0, Created(srv, NewHost(cfg.vias[w].ip), id), w, id)
  {
    assert forall h | h in srv0.hosts :: srv.hosts[h] == srv0.hosts[h];
  }

  lemma RepoIsWanted(cfg: Config, srv0: Server, srv: Server, w: nat, what: Creation, id: Id)
    requires Extends(srv0, srv) && w < |cfg.vias| && what.NewRepo? && CreatableTarget(cfg, srv, w, what)
    ensures WantedRepo(cfg, srv0, Created(srv, what, id), w, id)
  {
    assert forall r | r in srv0.repos :: srv.repos[r] == srv0.repos[r];
  }

  lemma ProxyIsWanted(cfg: Config, srv0: Server, srv: Server, w: nat, what: Creation, id: Id)
    requires Extends(srv0, srv) && w < |cfg.vias| && what.NewProxy? && CreatableTarget(cfg, srv, w, what)
    ensures WantedProxy(cfg, srv0, Created(srv, what, id), w, id)
  {
    assert forall p | p in srv0.proxies :: srv.proxies[p] == srv0.proxies[p];
  }

  lemma HostKeepsUnique(cfg: Config, srv: Server, w: nat, id: Id)
    requires WellFormed(srv) && NoDuplicates(cfg, srv) && w < |cfg.vias|
    requires !HostNamed(srv, cfg.vias[w].ip) && Fresh(srv, id)
    ensures NoDuplicates(cfg, Created(srv, NewHost(cfg.vias[w].ip), id))
  {
    var t := Created(srv, NewHost(cfg.vias[w].ip), id);
    assert forall v, h | 0 <= v < |cfg.vias| && h != id :: HostOf(cfg, t, v, h) == HostOf(cfg, srv, v, h);
    assert forall v, r | 0 <= v < |cfg.vias| :: NamedRepo(cfg, t, v, r) == NamedRepo(cfg, srv, v, r);
    assert forall p, h :: ProxyAt(t, p, h) == ProxyAt(srv, p, h);
  }

  lemma RepoKeepsUnique(cfg: Config, srv: Server, w: nat, what: Creation, id: Id)
    requires GoodConfig(cfg) && NoDuplicates(cfg, srv) && w < |cfg.vias|
    requires what.NewRepo? && CreatableTarget(cfg, srv, w, what) && Fresh(srv, id)
    ensures NoDuplicates(cfg, Created(srv, what, id))
  {
    var t := Created(srv, what, id);
    assert forall v, h | 0 <= v < |cfg.vias| :: HostOf(cfg, t, v, h) == HostOf(cfg, srv, v, h);
    assert forall v, r | 0 <= v < |cfg.vias| && r != id :: NamedRepo(cfg, t, v, r) == NamedRepo(cfg, srv, v, r);
    assert forall p, h :: ProxyAt(t, p, h) == ProxyAt(srv, p, h);
  }

  lemma ProxyKeepsUnique(cfg: Config, srv: Server, w: nat, what: Creation, id: Id)
    requires GoodConfig(cfg) && NoDuplicates(cfg, srv) && w < |cfg.vias|
    requires what.NewProxy? && CreatableTarget(cfg, srv, w, what) && Fresh(srv, id)
    ensures NoDuplicates(cfg, Created(srv, what, id))
  {
    var t := Created(srv, what, id);
    assert forall v, h | 0 <= v < |cfg.vias| :: HostOf(cfg, t, v, h) == HostOf(cfg, srv, v, h);
    assert forall v, r | 0 <= v < |cfg.vias| :: NamedRepo(cfg, t, v, r) == NamedRepo(cfg, srv, v, r);
    assert forall p, h | p != id :: ProxyAt(t, p, h) == ProxyAt(srv, p, h);
  }

  /** Another worker's landing creation does not disturb this worker. */
  lemma LandKeepsOthers(cfg: Config, srv: Server, w: nat, what: Creation, id: Id, v: nat, pc: Pc, session: Session)
    requires GoodConfig(cfg) && w < |cfg.vias| && v < |cfg.vias| && v != w
    requires Creatable(cfg, srv, w, what) && Fresh(srv, id)
    requires WorkerInv(cfg, srv, v, pc, session)
    ensures WorkerInv(cfg, Created(srv, what, id), v, pc, session)
  {
    var t := Created(srv, what, id);
    assert cfg.vias[v].ip != cfg.vias[w].ip;
    assert forall h :: HostOf(cfg, srv, v, h) ==> HostOf(cfg, t, v, h);
    assert HostNamed(t, cfg.vias[v].ip) == HostNamed(srv, cfg.vias[v].ip) by {
      if h :| h in t.hosts && t.hosts[h] == cfg.vias[v].ip { assert h in srv.hosts && srv.hosts[h] == cfg.vias[v].ip; }
      if h :| h in srv.hosts && srv.hosts[h] == cfg.vias[v].ip { assert h in t.hosts && t.hosts[h] == cfg.vias[v].ip; }
    }
    forall h | HostOf(cfg, srv, v, h) ensures Equipped(cfg, t, v, h) == Equipped(cfg, srv, v, h) {
      OthersEquippedAlike(cfg, srv, w, what, id, v, h);
    }
    assert forall r :: NamedRepo(cfg, srv, v, r) ==> NamedRepo(cfg, t, v, r);
  }

  lemma OthersEquippedAlike(cfg: Config, srv: Server, w: nat, what: Creation, id: Id, v: nat, h: Id)
    requires GoodConfig(cfg) && w < |cfg.vias| && v < |cfg.vias| && v != w
    requires Creatable(cfg, srv, w, what) && Fresh(srv, id) && HostOf(cfg, srv, v, h)
    ensures Equipped(cfg, Created(srv, what, id), v, h) == Equipped(cfg, srv, v, h)
  {
    var t := Created(srv, what, id);
    assert cfg.vias[v].ip != cfg.vias[w].ip;
    var name := Naming.RepoName(cfg.vias, v);
    if DutyAt(cfg, v).HardenedRepo? {
      if r :| r in t.repos && t.repos[r].name == name { assert r in srv.repos && srv.repos[r].name == name; }
      if r :| r in srv.repos && srv.repos[r].name == name { assert r in t.repos && t.repos[r].name == name; }
    }
    if p :| p in t.proxies && t.proxies[p] == h { assert p in srv.proxies && srv.proxies[p] == h; }
    if p :| p in srv.proxies && srv.proxies[p] == h { assert p in t.proxies && t.proxies[p] == h; }
  }

  /** A landing creation turns the worker's own session into the fact it waits for. */
  lemma LandKeepsOwn(cfg: Config, srv: Server, w: nat, what: Creation, id: Id, pc: Pc)
    requires w < |cfg.vias| && Creatable(cfg, srv, w, what) && Fresh(srv, id)
    requires WorkerInv(cfg, srv, w, pc, InFlight(what))
    ensures WorkerInv(cfg, Created(srv, what, id), w, pc, Succeeded)
  {
    var t := Created(srv, what, id);
    assert forall h :: HostOf(cfg, srv, w, h) ==> HostOf(cfg, t, w, h);
    match pc
    case AwaitHost =>
      assert id in t.hosts && t.hosts[id] == cfg.vias[w].ip;
    case Await(h, a) =>
      match what {
        case NewRepo(repo) => assert id in t.repos && t.repos[id].name == Naming.RepoName(cfg.vias, w);
        case NewProxy(_) => assert id in t.proxies && t.proxies[id] == h;
        case NewHost(_) =>
      }
    case Releasing(e) => if e.Wired? { WiredStays(cfg, srv, w, what, id); }
    case Ended(e) => if e.Wired? { WiredStays(cfg, srv, w, what, id); }
    case _ =>
  }

  lemma WiredStays(cfg: Config, srv: Server, w: nat, what: Creation, id: Id)
    requires w < |cfg.vias| && Fresh(srv, id) && NodeWired(cfg, srv, w)
    ensures NodeWired(cfg, Created(srv, what, id), w)
  {
    var t := Created(srv, what, id);
    var h :| HostOf(cfg, srv, w, h) && Equipped(cfg, srv, w, h);
    assert HostOf(cfg, t, w, h);
    match DutyAt(cfg, w)
    case HardenedRepo =>
      var name := Naming.RepoName(cfg.vias, w);
      var r :| r in srv.repos && srv.repos[r].name == name;
      assert r in t.repos && t.repos[r].name == name;
    case VmwareProxy =>
      var p :| p in srv.proxies && srv.proxies[p] == h;
      assert p in t.proxies && t.proxies[p] == h;
    case HostOnly =>
  }
}
