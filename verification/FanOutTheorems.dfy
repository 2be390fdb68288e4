/** What the fan-out guarantees over whole schedules: convergence across crashes and re-runs, schedule
    independence of the result, bounded parallelism, progress and termination. */
module FanOutTheorems {
  import opened Topology
  import opened Vbr
  import opened FanOut
  import opened FanOutInvariant
  import opened FanOutSteps
  import Naming

  /** The fan-out returned nil although the caller never cancelled. */
  predicate Success(s: State) {
    AllEnded(s) && s.firstErr == [] && !s.callerDone
  }

  // ---- the server a successful wiring leaves, as a function of where it started ----

  ghost function ExpectedHosts(cfg: Config, srv0: Server): set<string> {
    HostsView(srv0) + set w | 0 <= w < |cfg.vias| :: cfg.vias[w].ip
  }

  ghost function ExpectedRepos(cfg: Config, srv0: Server): set<RepoView>
    requires WellFormed(srv0)
  {
    ReposView(srv0) + set w | 0 <= w < |cfg.vias| && DutyAt(cfg, w).HardenedRepo? && !RepoNamed(srv0, Naming.RepoName(cfg.vias, w)) ::
      RepoView(Naming.RepoName(cfg.vias, w), cfg.vias[w].ip, cfg.path, cfg.days, cfg.mount)
  }

  ghost function ExpectedProxies(cfg: Config, srv0: Server): set<string>
    requires WellFormed(srv0)
  {
    ProxiesView(srv0) + set w | 0 <= w < |cfg.vias| && DutyAt(cfg, w).VmwareProxy? :: cfg.vias[w].ip
  }

  ghost predicate ViewIsExpected(cfg: Config, srv0: Server, srv: Server) {
    && WellFormed(srv0) && WellFormed(srv)
    && HostsView(srv) == ExpectedHosts(cfg, srv0)
    && ReposView(srv) == ExpectedRepos(cfg, srv0)
    && ProxiesView(srv) == ExpectedProxies(cfg, srv0)
  }

  /** Exactly one host per node, one repository per hardened name, one proxy per proxy node. */
  ghost predicate ExactlyOneEach(cfg: Config, srv: Server) {
    && NoDuplicates(cfg, srv)
    && forall w | 0 <= w < |cfg.vias| :: NodeWired(cfg, srv, w)
  }

  lemma SuccessWiresAll(cfg: Config, srv0: Server, s: State)
    requires Inv(cfg, srv0, s) && Success(s)
    ensures ExactlyOneEach(cfg, s.srv)
  {
    forall w | 0 <= w < |cfg.vias| ensures NodeWired(cfg, s.srv, w) {
      assert !s.done;
      assert !Unwired(s.pcs[w]);
      assert s.pcs[w] == Ended(Wired);
    }
  }

  lemma HostsAreExpected(cfg: Config, srv0: Server, srv: Server)
    requires ServerInv(cfg, srv0, srv) && ExactlyOneEach(cfg, srv)
    ensures HostsView(srv) == ExpectedHosts(cfg, srv0)
  {
    forall name | name in ExpectedHosts(cfg, srv0) ensures name in HostsView(srv) {
      if name in HostsView(srv0) {
        var h :| h in srv0.hosts && srv0.hosts[h] == name;
        assert h in srv.hosts && srv.hosts[h] == name;
      } else {
        var w :| 0 <= w < |cfg.vias| && cfg.vias[w].ip == name;
        assert NodeWired(cfg, srv, w);
        var h :| HostOf(cfg, srv, w, h);
        assert h in srv.hosts && srv.hosts[h] == name;
      }
    }
    forall h | h in srv.hosts ensures srv.hosts[h] in ExpectedHosts(cfg, srv0) {
      if h !in srv0.hosts {
        var w: nat :| WantedHost(cfg, srv0, srv, w, h);
        assert srv.hosts[h] == cfg.vias[w].ip;
      } else {
        assert srv.hosts[h] == srv0.hosts[h];
      }
    }
  }

  lemma ReposAreExpected(cfg: Config, srv0: Server, srv: Server)
    requires WellFormed(srv0) && ServerInv(cfg, srv0, srv) && ExactlyOneEach(cfg, srv) && GoodNames(cfg)
    ensures ReposView(srv) == ExpectedRepos(cfg, srv0)
  {
    forall v | v in ExpectedRepos(cfg, srv0) ensures v in ReposView(srv) {
      if v in ReposView(srv0) {
        var r :| r in srv0.repos && ViewRepo(srv0, srv0.repos[r]) == v;
        assert r in srv.repos && ViewRepo(srv, srv.repos[r]) == v;
      } else {
        var w :| 0 <= w < |cfg.vias| && DutyAt(cfg, w).HardenedRepo? && !RepoNamed(srv0, Naming.RepoName(cfg.vias, w))
          && v == RepoView(Naming.RepoName(cfg.vias, w), cfg.vias[w].ip, cfg.path, cfg.days, cfg.mount);
        NewRepoIsWanted(cfg, srv0, srv, w, v);
      }
    }
    forall r | r in srv.repos ensures ViewRepo(srv, srv.repos[r]) in ExpectedRepos(cfg, srv0) {
      if r in srv0.repos {
        assert ViewRepo(srv, srv.repos[r]) == ViewRepo(srv0, srv0.repos[r]);
      } else {
        var w: nat :| WantedRepo(cfg, srv0, srv, w, r);
        assert DutyAt(cfg, w).HardenedRepo? && !RepoNamed(srv0, Naming.RepoName(cfg.vias, w));
      }
    }
  }

  lemma NewRepoIsWanted(cfg: Config, srv0: Server, srv: Server, w: nat, v: RepoView)
    requires WellFormed(srv0) && ServerInv(cfg, srv0, srv) && ExactlyOneEach(cfg, srv) && GoodNames(cfg)
    requires w < |cfg.vias| && DutyAt(cfg, w).HardenedRepo? && !RepoNamed(srv0, Naming.RepoName(cfg.vias, w))
    requires v == RepoView(Naming.RepoName(cfg.vias, w), cfg.vias[w].ip, cfg.path, cfg.days, cfg.mount)
    ensures v in ReposView(srv)
  {
    assert NodeWired(cfg, srv, w);
    var r :| r in srv.repos && srv.repos[r].name == Naming.RepoName(cfg.vias, w);
    assert r !in srv0.repos;
    var u: nat :| WantedRepo(cfg, srv0, srv, u, r);
    assert u == w;
    assert ViewRepo(srv, srv.repos[r]) == v;
  }

  /** Hardened names are pairwise distinct, in either order. */
  ghost predicate GoodNames(cfg: Config) {
    forall i, j | 0 <= i < |cfg.vias| && 0 <= j < |cfg.vias| && i != j && DutyAt(cfg, i).HardenedRepo? && DutyAt(cfg, j).HardenedRepo? ::
      Naming.RepoName(cfg.vias, i) != Naming.RepoName(cfg.vias, j)
  }

  lemma ProxiesAreExpected(cfg: Config, srv0: Server, srv: Server)
    requires WellFormed(srv0) && ServerInv(cfg, srv0, srv) && ExactlyOneEach(cfg, srv)
    ensures ProxiesView(srv) == ExpectedProxies(cfg, srv0)
  {
    forall name | name in ExpectedProxies(cfg, srv0) ensures name in ProxiesView(srv) {
      if name in ProxiesView(srv0) {
        var p :| p in srv0.proxies && srv0.hosts[srv0.proxies[p]] == name;
        assert p in srv.proxies && srv.hosts[srv.proxies[p]] == name;
      } else {
        var w :| 0 <= w < |cfg.vias| && DutyAt(cfg, w).VmwareProxy? && cfg.vias[w].ip == name;
        assert NodeWired(cfg, srv, w);
        var h :| HostOf(cfg, srv, w, h) && Equipped(cfg, srv, w, h);
        var p :| p in srv.proxies && srv.proxies[p] == h;
        assert srv.hosts[srv.proxies[p]] == name;
      }
    }
    forall p | p in srv.proxies ensures srv.hosts[srv.proxies[p]] in ExpectedProxies(cfg, srv0) {
      if p in srv0.proxies {
        assert srv.hosts[srv.proxies[p]] == srv0.hosts[srv0.proxies[p]];
      } else {
        var w: nat :| WantedProxy(cfg, srv0, srv, w, p);
        assert DutyAt(cfg, w).VmwareProxy? && cfg.vias[w].ip == srv.hosts[srv.proxies[p]];
      }
    }
  }

  /** Whatever the interleaving, and however often the wiring was stopped and run again, a successful run
      leaves exactly one host, repository and proxy per node, the content the topology calls for, and every
      earlier entry as it was. */
  lemma ResumableConvergence(cfg: Config, srv0: Server, steps: seq<Step>)
    requires GoodStart(cfg, srv0)
    requires Success(Run(cfg, Launch(cfg, srv0), steps))
    ensures var srv := Run(cfg, Launch(cfg, srv0), steps).srv;
      ViewIsExpected(cfg, srv0, srv) && ExactlyOneEach(cfg, srv) && Extends(srv0, srv)
  {
    StartHasInv(cfg, srv0);
    RunKeepsInv(cfg, srv0, Launch(cfg, srv0), steps);
    var s := Run(cfg, Launch(cfg, srv0), steps);
    SuccessWiresAll(cfg, srv0, s);
    assert GoodNames(cfg);
    HostsAreExpected(cfg, srv0, s.srv);
    ReposAreExpected(cfg, srv0, s.srv);
    ProxiesAreExpected(cfg, srv0, s.srv);
  }

  /** Two successful histories from one server leave the same content, whatever was interrupted in either. */
  lemma HistoriesAgree(cfg: Config, srv0: Server, steps: seq<Step>, other: seq<Step>)
    requires GoodStart(cfg, srv0)
    requires Success(Run(cfg, Launch(cfg, srv0), steps)) && Success(Run(cfg, Launch(cfg, srv0), other))
    ensures var a, b := Run(cfg, Launch(cfg, srv0), steps).srv, Run(cfg, Launch(cfg, srv0), other).srv;
      && WellFormed(a) && WellFormed(b)
      && HostsView(a) == HostsView(b) && ReposView(a) == ReposView(b) && ProxiesView(a) == ProxiesView(b)
  {
    ResumableConvergence(cfg, srv0, steps);
    ResumableConvergence(cfg, srv0, other);
  }

  // ---- what a nil error means ----

  /** A worker that has made no REST call has wired nothing: its node is as it was at launch, and nobody
      else's creation concerns it. */
  ghost predicate QuietUnchanged(cfg: Config, srv0: Server, s: State)
    requires Shaped(cfg, s)
  {
    forall w | 0 <= w < |s.pcs| && Silent(s.pcs[w]) && NodeWired(cfg, s.srv, w) :: NodeWired(cfg, srv0, w)
  }

  /** Another worker's landing creation does not wire this node. */
  lemma OthersDoNotWire(cfg: Config, srv: Server, w: nat, what: Creation, id: Id, v: nat)
    requires GoodConfig(cfg) && w < |cfg.vias| && v < |cfg.vias| && v != w
    requires Creatable(cfg, srv, w, what) && Fresh(srv, id) && NodeWired(cfg, Created(srv, what, id), v)
    ensures NodeWired(cfg, srv, v)
  {
    var t := Created(srv, what, id);
    assert cfg.vias[v].ip != cfg.vias[w].ip;
    var h :| HostOf(cfg, t, v, h) && Equipped(cfg, t, v, h);
    assert HostOf(cfg, srv, v, h);
    OthersEquippedAlike(cfg, srv, w, what, id, v, h);
  }

  lemma QuietComesFromQuiet(cfg: Config, s: State, step: Step)
    requires IsWorkerStep(step) && Enabled(cfg, s, step) && Silent(WorkerMove(cfg, s, step).pc)
    ensures Silent(s.pcs[step.w])
  {
  }

  lemma LandKeepsQuiet(cfg: Config, srv0: Server, s: State, w: nat, id: Id)
    requires GoodConfig(cfg) && Inv(cfg, srv0, s) && QuietUnchanged(cfg, srv0, s) && Enabled(cfg, s, Land(w, id))
    ensures QuietUnchanged(cfg, srv0, Apply(cfg, s, Land(w, id)))
  {
    var what, t := s.sessions[w].what, Apply(cfg, s, Land(w, id));
    assert WorkerInv(cfg, s.srv, w, s.pcs[w], s.sessions[w]);
    forall v | 0 <= v < |s.pcs| && Silent(s.pcs[v]) && NodeWired(cfg, t.srv, v) ensures NodeWired(cfg, srv0, v) {
      OthersDoNotWire(cfg, s.srv, w, what, id, v);
    }
  }

  lemma WorkerKeepsQuiet(cfg: Config, srv0: Server, s: State, step: Step)
    requires Shaped(cfg, s) && QuietUnchanged(cfg, srv0, s) && IsWorkerStep(step) && Enabled(cfg, s, step)
    ensures QuietUnchanged(cfg, srv0, Apply(cfg, s, step))
  {
    var m := WorkerMove(cfg, s, step);
    assert Apply(cfg, s, step) == Moved(s, step.w, m);
    if Silent(m.pc) {
      QuietComesFromQuiet(cfg, s, step);
    }
  }

  lemma NextKeepsQuiet(cfg: Config, srv0: Server, s: State, step: Step)
    requires GoodConfig(cfg) && Inv(cfg, srv0, s) && QuietUnchanged(cfg, srv0, s) && !step.Restart?
    ensures Shaped(cfg, Next(cfg, s, step)) && QuietUnchanged(cfg, srv0, Next(cfg, s, step))
  {
    var t := Next(cfg, s, step);
    if Enabled(cfg, s, step) && step.Land? {
      LandKeepsQuiet(cfg, srv0, s, step.w, step.id);
    } else if Enabled(cfg, s, step) && IsWorkerStep(step) {
      WorkerKeepsQuiet(cfg, srv0, s, step);
    } else {
      assert t.srv == s.srv && t.pcs == s.pcs && Shaped(cfg, t);
    }
  }

  lemma {:induction false} RunKeepsQuiet(cfg: Config, srv0: Server, s: State, steps: seq<Step>)
    requires GoodStart(cfg, srv0) && Inv(cfg, srv0, s) && QuietUnchanged(cfg, srv0, s) && WithoutRestart(steps)
    ensures Shaped(cfg, Run(cfg, s, steps)) && QuietUnchanged(cfg, srv0, Run(cfg, s, steps))
    decreases |steps|
  {
    if steps != [] {
      NextKeepsInv(cfg, srv0, s, steps[0]);
      NextKeepsQuiet(cfg, srv0, s, steps[0]);
      RunKeepsQuiet(cfg, srv0, Next(cfg, s, steps[0]), steps[1..]);
    }
  }

  /** After a nil error a node is wired exactly when its worker finished or the node was wired at launch. A
      worker that did not finish has quit, and the caller has cancelled. */
  lemma NilErrorExactly(cfg: Config, srv0: Server, steps: seq<Step>, w: nat)
    requires GoodStart(cfg, srv0) && WithoutRestart(steps) && w < |cfg.vias|
    requires var s := Run(cfg, Launch(cfg, srv0), steps); AllEnded(s) && s.firstErr == []
    ensures var s := Run(cfg, Launch(cfg, srv0), steps);
      && Shaped(cfg, s)
      && (NodeWired(cfg, s.srv, w) <==> s.pcs[w] == Ended(Wired) || NodeWired(cfg, srv0, w))
      && (s.pcs[w] != Ended(Wired) ==> s.pcs[w] == Ended(Quit) && s.callerDone)
  {
    var s := Run(cfg, Launch(cfg, srv0), steps);
    StartHasInv(cfg, srv0);
    RunKeepsInv(cfg, srv0, Launch(cfg, srv0), steps);
    RunKeepsQuiet(cfg, srv0, Launch(cfg, srv0), steps);
    assert WorkerInv(cfg, s.srv, w, s.pcs[w], s.sessions[w]);
    assert Unwired(s.pcs[w]) ==> s.done;
    if NodeWired(cfg, srv0, w) {
      WiredSurvives(cfg, srv0, s.srv, w);
    }
  }

  lemma WiredSurvives(cfg: Config, a: Server, b: Server, w: nat)
    requires w < |cfg.vias| && Extends(a, b) && NodeWired(cfg, a, w)
    ensures NodeWired(cfg, b, w)
  {
    var h :| HostOf(cfg, a, w, h) && Equipped(cfg, a, w, h);
    assert HostOf(cfg, b, w, h);
    match DutyAt(cfg, w)
    case HardenedRepo =>
      var r :| r in a.repos && a.repos[r].name == Naming.RepoName(cfg.vias, w);
      assert r in b.repos && b.repos[r].name == Naming.RepoName(cfg.vias, w);
    case VmwareProxy =>
      var p :| p in a.proxies && a.proxies[p] == h;
      assert p in b.proxies && b.proxies[p] == h;
    case HostOnly =>
  }

  /** Every worker from `from` on gives up before it has a slot. */
  function Skips(n: nat, from: nat): (steps: seq<Step>)
    requires from <= n
    ensures |steps| == n - from
    decreases n - from
  {
    if from == n then [] else [Skip(from)] + Skips(n, from + 1)
  }

  lemma {:induction false} SkipsEndAll(cfg: Config, s: State, from: nat)
    requires Shaped(cfg, s) && from <= |s.pcs| && s.done
    requires forall w | 0 <= w < |s.pcs| :: if w < from then s.pcs[w].Ended? else s.pcs[w].Start?
    ensures var t := Run(cfg, s, Skips(|s.pcs|, from)); AllEnded(t) && t.firstErr == s.firstErr && t.srv == s.srv
    decreases |s.pcs| - from
  {
    if from < |s.pcs| {
      assert Skips(|s.pcs|, from)[1..] == Skips(|s.pcs|, from + 1);
      SkipsEndAll(cfg, Next(cfg, s, Skip(from)), from + 1);
    }
  }

  /** So nil alone does not mean wired, for any topology: when the caller cancels before the first worker has
      its slot, all workers give up, the error is nil and the server is untouched. */
  lemma NilErrorWithoutWiring(cfg: Config, srv0: Server)
    ensures var s := Run(cfg, Launch(cfg, srv0), [CallerCancels] + Skips(|cfg.vias|, 0));
      AllEnded(s) && s.firstErr == [] && s.srv == srv0
  {
    var steps := [CallerCancels] + Skips(|cfg.vias|, 0);
    assert steps[1..] == Skips(|cfg.vias|, 0);
    SkipsEndAll(cfg, Next(cfg, Launch(cfg, srv0), CallerCancels), 0);
  }

  // ---- the value returned ----

  /** The identifier returned on success is the repository of the lowest-index hardened node, or none. */
  ghost predicate ReturnsFirstRepo(cfg: Config, srv: Server, id: Id) {
    if HasHR(cfg.vias) then exists i: nat :: IsFirstHR(cfg.vias, i) && NamedRepo(cfg, srv, i, id)
    else id == NONE
  }

  lemma ScheduleIndependentResult(cfg: Config, srv0: Server, steps: seq<Step>, id: Id)
    requires GoodStart(cfg, srv0)
    requires Success(Run(cfg, Launch(cfg, srv0), steps))
    requires IsLowest(Run(cfg, Launch(cfg, srv0), steps).results, id)
    ensures ReturnsFirstRepo(cfg, Run(cfg, Launch(cfg, srv0), steps).srv, id)
  {
    StartHasInv(cfg, srv0);
    RunKeepsInv(cfg, srv0, Launch(cfg, srv0), steps);
    var s := Run(cfg, Launch(cfg, srv0), steps);
    assert ControlInv(cfg, s) && ResultsInv(cfg, s);
    SuccessReturnsFirst(cfg, s, id);
  }

  lemma SuccessReturnsFirst(cfg: Config, s: State, id: Id)
    requires Shaped(cfg, s) && ControlInv(cfg, s) && ResultsInv(cfg, s) && Success(s) && IsLowest(s.results, id)
    ensures ReturnsFirstRepo(cfg, s.srv, id)
  {
    forall w | 0 <= w < |s.pcs| ensures DutyAt(cfg, w).HardenedRepo? == Recordable(cfg, s, w) {
      assert s.pcs[w].Ended? && !Unwired(s.pcs[w]);
    }
    if s.results == [] {
      forall w | 0 <= w < |cfg.vias| ensures !DutyOf(cfg.vias[w].role).HardenedRepo? {
        assert DutyAt(cfg, w) == DutyOf(cfg.vias[w].role) && !Recordable(cfg, s, w);
      }
    } else {
      var k :| 0 <= k < |s.results| && s.results[k].1 == id && forall m | 0 <= m < |s.results| :: s.results[k].0 <= s.results[m].0;
      var i := s.results[k].0;
      assert Recordable(cfg, s, i) && DutyAt(cfg, i) == DutyOf(cfg.vias[i].role);
      forall j | 0 <= j < i ensures !DutyOf(cfg.vias[j].role).HardenedRepo? {
        assert DutyAt(cfg, j) == DutyOf(cfg.vias[j].role) && !Recordable(cfg, s, j);
      }
      assert IsFirstHR(cfg.vias, i) && NamedRepo(cfg, s.srv, i, id);
    }
  }

  // ---- slots, errors, cancellation ----

  /** In every interleaving at most four workers hold a slot, and a waiting one can take a slot exactly when fewer
      do. */
  lemma AtMostFourHold(cfg: Config, srv0: Server, steps: seq<Step>)
    requires GoodStart(cfg, srv0)
    ensures var s := Run(cfg, Launch(cfg, srv0), steps);
      && Holders(s.pcs) <= 4
      && forall w: nat | w < |s.pcs| && s.pcs[w].Start? :: Enabled(cfg, s, Acquire(w)) <==> Holders(s.pcs) < 4
  {
    StartHasInv(cfg, srv0);
    RunKeepsInv(cfg, srv0, Launch(cfg, srv0), steps);
  }

  predicate WithoutRestart(steps: seq<Step>) {
    forall k | 0 <= k < |steps| :: !steps[k].Restart?
  }

  /** Within one run the first recorded error is never replaced, and cancellation is never undone. */
  lemma {:induction false} FirstErrorWins(cfg: Config, s: State, steps: seq<Step>)
    requires WithoutRestart(steps)
    ensures var t := Run(cfg, s, steps); (s.firstErr != [] ==> t.firstErr == s.firstErr) && (s.done ==> t.done)
    decreases |steps|
  {
    if steps != [] {
      FirstErrorWins(cfg, Next(cfg, s, steps[0]), steps[1..]);
    }
  }

  /** Positions from which a worker has made no REST call and will make none. */
  predicate Silent(pc: Pc) {
    pc.Start? || pc.Slot? || pc == Releasing(Quit) || pc == Ended(Quit)
  }

  lemma SilentMoves(cfg: Config, s: State, step: Step)
    requires IsWorkerStep(step) && Enabled(cfg, s, step) && s.done && Silent(s.pcs[step.w]) && s.sessions[step.w].Idle?
    ensures var m := WorkerMove(cfg, s, step); Silent(m.pc) && m.session.Idle?
  {
  }

  lemma SilentStays(cfg: Config, s: State, step: Step, w: nat)
    requires Shaped(cfg, s) && w < |s.pcs| && s.done && Silent(s.pcs[w]) && s.sessions[w].Idle? && !step.Restart?
    ensures var t := Next(cfg, s, step); Shaped(cfg, t) && Silent(t.pcs[w]) && t.sessions[w].Idle? && t.done
  {
    if Enabled(cfg, s, step) && IsWorkerStep(step) {
      if step.w == w {
        SilentMoves(cfg, s, step);
      }
      assert Next(cfg, s, step) == Moved(s, step.w, WorkerMove(cfg, s, step));
    }
  }

  /** A worker that has not passed its cancellation test when the fan-out is cancelled never makes a REST
      call, takes no part in the results and has no creation in flight. */
  lemma {:induction false} LateWorkerIsSilent(cfg: Config, s: State, steps: seq<Step>, w: nat)
    requires Shaped(cfg, s) && w < |s.pcs| && s.done && Silent(s.pcs[w]) && s.sessions[w].Idle? && WithoutRestart(steps)
    ensures var t := Run(cfg, s, steps); Shaped(cfg, t) && Silent(t.pcs[w]) && t.sessions[w].Idle?
    decreases |steps|
  {
    if steps != [] {
      SilentStays(cfg, s, steps[0], w);
      LateWorkerIsSilent(cfg, Next(cfg, s, steps[0]), steps[1..], w);
    }
  }

  // ---- progress and termination ----

  /** No reachable state is stuck before all workers have ended: some worker can move. */
  lemma NeverStuck(cfg: Config, srv0: Server, s: State) returns (step: Step)
    requires Inv(cfg, srv0, s) && !AllEnded(s)
    ensures IsWorkerStep(step) && Enabled(cfg, s, step)
  {
    var w: nat :| w < |s.pcs| && !s.pcs[w].Ended?;
    if s.pcs[w].Start? && s.sem >= MAX_PARALLEL {
      w := HolderExists(s.pcs);
    }
    match s.pcs[w]
    case Start => step := Acquire(w);
    case Slot => step := Check(w);
    case WaitUp => step := Up(w);
    case AddHost => step := Posted(w);
    case Create(_, _) => step := Posted(w);
    case Update(_, _) => step := Updated(w);
    case Record(_, _) => step := Recorded(w);
    case Releasing(_) => step := Release(w);
    case _ => step := Fails(w);
  }

  lemma {:induction false} HolderExists(pcs: seq<Pc>) returns (w: nat)
    requires Holders(pcs) > 0
    ensures w < |pcs| && Holds(pcs[w])
  {
    if Holds(pcs[0]) {
      w := 0;
    } else {
      var v := HolderExists(pcs[1..]);
      w := v + 1;
    }
  }

  /** How many more steps a worker can take, at most. */
  function Rank(pc: Pc): nat {
    match pc
    case Start => 21
    case Slot => 20
    case WaitUp => 19
    case FindHost => 18
    case AddHost => 17
    case AwaitHost => 16
    case ResolveHost => 15
    case Target(_) => 14
    case Create(_, a) => if a <= 3 then 13 - 2 * (a - 1) else 7
    case Update(_, a) => if a <= 3 then 12 - 2 * (a - 1) else 7
    case Await(_, _) => 6
    case ResolveRepo(_) => 5
    case Record(_, _) => 4
    case Releasing(_) => 1
    case Ended(_) => 0
  }

  function TotalRank(pcs: seq<Pc>): nat {
    if pcs == [] then 0 else Rank(pcs[0]) + TotalRank(pcs[1..])
  }

  lemma {:induction false} TotalRankUpdate(pcs: seq<Pc>, w: nat, pc: Pc)
    requires w < |pcs|
    ensures TotalRank(pcs[w := pc]) == TotalRank(pcs) - Rank(pcs[w]) + Rank(pc)
  {
    if w == 0 {
      assert pcs[w := pc][1..] == pcs[1..];
    } else {
      assert pcs[w := pc][1..] == pcs[1..][w - 1 := pc];
      TotalRankUpdate(pcs[1..], w - 1, pc);
    }
  }

  lemma {:induction false} TotalRankOfFresh(n: nat)
    ensures TotalRank(seq(n, _ => Start)) == 21 * n
  {
    if n > 0 {
      assert seq(n, _ => Start)[1..] == seq(n - 1, _ => Start);
      TotalRankOfFresh(n - 1);
    }
  }

  /** The steps of a schedule that some worker really took. */
  ghost function WorkerSteps(cfg: Config, s: State, steps: seq<Step>): nat
    decreases |steps|
  {
    if steps == [] then 0 else
      var taken := if IsWorkerStep(steps[0]) && Enabled(cfg, s, steps[0]) then 1 else 0;
      taken + WorkerSteps(cfg, Next(cfg, s, steps[0]), steps[1..])
  }

  lemma WorkerStepLowersRank(cfg: Config, srv0: Server, s: State, step: Step)
    requires Inv(cfg, srv0, s) && IsWorkerStep(step) && Enabled(cfg, s, step)
    ensures TotalRank(Apply(cfg, s, step).pcs) < TotalRank(s.pcs)
  {
    var m := WorkerMove(cfg, s, step);
    assert WorkerInv(cfg, s.srv, step.w, s.pcs[step.w], s.sessions[step.w]);
    MoveLowersRank(cfg, s, step);
    TotalRankUpdate(s.pcs, step.w, m.pc);
  }

  lemma MoveLowersRank(cfg: Config, s: State, step: Step)
    requires IsWorkerStep(step) && Enabled(cfg, s, step)
    requires s.pcs[step.w].Create? ==> 1 <= s.pcs[step.w].attempt <= 3
    requires s.pcs[step.w].Update? ==> 1 <= s.pcs[step.w].attempt < 3
    ensures Rank(WorkerMove(cfg, s, step).pc) < Rank(s.pcs[step.w])
  {
  }

  /** A step some worker takes lowers the total rank; any other leaves it alone. */
  lemma StepLowersRank(cfg: Config, srv0: Server, s: State, step: Step)
    requires Inv(cfg, srv0, s) && !step.Restart?
    ensures var taken := if IsWorkerStep(step) && Enabled(cfg, s, step) then 1 else 0;
      taken + TotalRank(Next(cfg, s, step).pcs) <= TotalRank(s.pcs)
  {
    if IsWorkerStep(step) && Enabled(cfg, s, step) {
      WorkerStepLowersRank(cfg, srv0, s, step);
    }
  }

  lemma {:induction false} RankBoundsSteps(cfg: Config, srv0: Server, s: State, steps: seq<Step>)
    requires GoodStart(cfg, srv0) && Inv(cfg, srv0, s) && WithoutRestart(steps)
    ensures WorkerSteps(cfg, s, steps) + TotalRank(Run(cfg, s, steps).pcs) <= TotalRank(s.pcs)
    decreases |steps|
  {
    if steps != [] {
      NextKeepsInv(cfg, srv0, s, steps[0]);
      StepLowersRank(cfg, srv0, s, steps[0]);
      RankBoundsSteps(cfg, srv0, Next(cfg, s, steps[0]), steps[1..]);
    }
  }

  /** One run takes at most 21 steps per node, retries included. */
  lemma RunIsBounded(cfg: Config, srv0: Server, steps: seq<Step>)
    requires GoodStart(cfg, srv0) && WithoutRestart(steps)
    ensures WorkerSteps(cfg, Launch(cfg, srv0), steps) <= 21 * |cfg.vias|
  {
    StartHasInv(cfg, srv0);
    RankBoundsSteps(cfg, srv0, Launch(cfg, srv0), steps);
    TotalRankOfFresh(|cfg.vias|);
  }
}
