/** What the fan-out gets done: without a failing call it records no error, and from wherever an interrupted run
    has left the server a further run can succeed, exactly when every node has an address. */
module FanOutProgress {
  import opened Topology
  import opened Vbr
  import opened FanOut
  import opened FanOutInvariant
  import opened FanOutSteps
  import opened FanOutTheorems
  import Naming

  predicate AllAddressed(cfg: Config) { forall w | 0 <= w < |cfg.vias| :: cfg.vias[w].ip != "" }

  // ---- no error without a failing call ----

  /** No call and no wait fails. */
  predicate NothingFails(steps: seq<Step>) { forall k | 0 <= k < |steps| :: !steps[k].Fails? }

  /** A worker fails only when its call does, or when its node has no address. */
  lemma MoveFailsOnlyThen(cfg: Config, s: State, step: Step)
    requires IsWorkerStep(step) && Enabled(cfg, s, step) && !step.Fails? && cfg.vias[step.w].ip != ""
    requires WorkerInv(cfg, s.srv, step.w, s.pcs[step.w], s.sessions[step.w])
    ensures !WorkerMove(cfg, s, step).fails
  {
  }

  lemma NextRecordsNoError(cfg: Config, srv0: Server, s: State, step: Step)
    requires Inv(cfg, srv0, s) && AllAddressed(cfg) && s.firstErr == [] && !step.Fails?
    ensures Next(cfg, s, step).firstErr == []
  {
    if Enabled(cfg, s, step) && IsWorkerStep(step) {
      assert WorkerInv(cfg, s.srv, step.w, s.pcs[step.w], s.sessions[step.w]);
      MoveFailsOnlyThen(cfg, s, step);
    }
  }

  lemma {:induction false} RunRecordsNoError(cfg: Config, srv0: Server, s: State, steps: seq<Step>)
    requires GoodStart(cfg, srv0) && Inv(cfg, srv0, s) && AllAddressed(cfg) && s.firstErr == [] && NothingFails(steps)
    ensures Run(cfg, s, steps).firstErr == []
    decreases |steps|
  {
    if steps != [] {
      NextRecordsNoError(cfg, srv0, s, steps[0]);
      NextKeepsInv(cfg, srv0, s, steps[0]);
      RunRecordsNoError(cfg, srv0, Next(cfg, s, steps[0]), steps[1..]);
    }
  }

  /** A host, repository or proxy that is there already is no error, nor is anything else: whatever the
      interleaving, the server at the start and the restarts on the way, an error is recorded only if some
      call fails or some node has no address. */
  lemma NoErrorWithoutFailure(cfg: Config, srv0: Server, steps: seq<Step>)
    requires GoodStart(cfg, srv0) && AllAddressed(cfg) && NothingFails(steps)
    ensures Run(cfg, Launch(cfg, srv0), steps).firstErr == []
  {
    StartHasInv(cfg, srv0);
    RunRecordsNoError(cfg, srv0, Launch(cfg, srv0), steps);
  }

  /** So with no failure and no cancellation, a run whose workers have all ended has wired everything. */
  lemma UndisturbedRunSucceeds(cfg: Config, srv0: Server, steps: seq<Step>)
    requires GoodStart(cfg, srv0) && AllAddressed(cfg) && NothingFails(steps)
    requires AllEnded(Run(cfg, Launch(cfg, srv0), steps)) && !Run(cfg, Launch(cfg, srv0), steps).callerDone
    ensures Success(Run(cfg, Launch(cfg, srv0), steps))
  {
    NoErrorWithoutFailure(cfg, srv0, steps);
  }

  // ---- a run that succeeds ----

  /** Steps of one run in which nothing goes wrong. */
  predicate Smooth(step: Step) { !step.Fails? && !step.Abort? && !step.CallerCancels? && !step.Restart? }

  predicate AllSmooth(steps: seq<Step>) { forall k | 0 <= k < |steps| :: Smooth(steps[k]) }

  /** Nothing has gone wrong so far: no error, no cancellation, no aborted creation. */
  predicate Healthy(s: State) {
    s.firstErr == [] && !s.done && !s.callerDone && forall w | 0 <= w < |s.sessions| :: !s.sessions[w].Aborted?
  }

  lemma {:induction false} LongestKey(ids: set<Id>) returns (n: nat)
    ensures forall id | id in ids :: |id| <= n
  {
    if ids == {} {
      return 0;
    }
    var id :| id in ids;
    var m := LongestKey(ids - {id});
    n := if |id| > m then |id| else m;
    assert forall x | x in ids :: x == id || x in ids - {id};
  }

  /** There is always an identifier the server has not used. */
  lemma FreshExists(srv: Server) returns (id: Id)
    ensures Fresh(srv, id)
  {
    var n := LongestKey(srv.hosts.Keys + srv.repos.Keys + srv.proxies.Keys);
    id := seq(n + 1, _ => 'x');
    assert |id| == n + 1;
    assert id !in srv.hosts.Keys + srv.repos.Keys + srv.proxies.Keys;
  }

  lemma HealthyNext(cfg: Config, srv0: Server, s: State, step: Step)
    requires GoodStart(cfg, srv0) && Inv(cfg, srv0, s) && AllAddressed(cfg) && Healthy(s) && Smooth(step)
    ensures Inv(cfg, srv0, Next(cfg, s, step)) && Healthy(Next(cfg, s, step))
  {
    NextKeepsInv(cfg, srv0, s, step);
    NextRecordsNoError(cfg, srv0, s, step);
    if Enabled(cfg, s, step) && IsWorkerStep(step) {
      assert WorkerInv(cfg, s.srv, step.w, s.pcs[step.w], s.sessions[step.w]);
      MoveStaysHealthy(cfg, s, step);
    }
  }

  lemma MoveStaysHealthy(cfg: Config, s: State, step: Step)
    requires IsWorkerStep(step) && Enabled(cfg, s, step) && Smooth(step) && !s.sessions[step.w].Aborted? && cfg.vias[step.w].ip != ""
    requires WorkerInv(cfg, s.srv, step.w, s.pcs[step.w], s.sessions[step.w])
    ensures !WorkerMove(cfg, s, step).session.Aborted? && !WorkerMove(cfg, s, step).fails
  {
  }

  /** The answer a lookup gives. */
  lemma LookupAnswer(cfg: Config, srv: Server, w: nat, pc: Pc) returns (id: Id)
    requires w < |cfg.vias| && (pc.FindHost? || pc.ResolveHost? || pc.Target? || pc.ResolveRepo?) && WellFormed(srv)
    ensures AnswerOk(cfg, srv, w, pc, id)
  {
    id := NONE;
    match pc
    case FindHost => if HostNamed(srv, cfg.vias[w].ip) { id :| id in srv.hosts && srv.hosts[id] == cfg.vias[w].ip; }
    case ResolveHost => if HostNamed(srv, cfg.vias[w].ip) { id :| id in srv.hosts && srv.hosts[id] == cfg.vias[w].ip; }
    case Target(host) =>
      if DutyAt(cfg, w).HardenedRepo? {
        id := RepoAnswer(srv, Naming.RepoName(cfg.vias, w));
      } else if ProxyOn(srv, host) {
        id :| id in srv.proxies && srv.proxies[id] == host;
      }
    case ResolveRepo(_) => id := RepoAnswer(srv, Naming.RepoName(cfg.vias, w));
  }

  lemma RepoAnswer(srv: Server, name: string) returns (id: Id)
    requires WellFormed(srv)
    ensures FindsRepo(srv, name, id)
  {
    id := NONE;
    if RepoNamed(srv, name) {
      id :| id in srv.repos && srv.repos[id].name == name;
    }
  }

  /** A worker's next step when nothing goes wrong. */
  lemma SmoothStep(cfg: Config, srv0: Server, s: State, w: nat) returns (step: Step)
    requires Inv(cfg, srv0, s) && w < |s.pcs| && !s.pcs[w].Ended? && (s.pcs[w].Start? ==> s.sem < MAX_PARALLEL)
    requires (s.pcs[w].AwaitHost? || s.pcs[w].Await?) ==> s.sessions[w].Succeeded?
    ensures IsWorkerStep(step) && step.w == w && Smooth(step) && Enabled(cfg, s, step)
  {
    var pc := s.pcs[w];
    if pc.FindHost? || pc.ResolveHost? || pc.Target? || pc.ResolveRepo? {
      var id := LookupAnswer(cfg, s.srv, w, pc);
      return Found(w, id);
    }
    match pc
    case Start => step := Acquire(w);
    case Slot => step := Check(w);
    case WaitUp => step := Up(w);
    case AddHost => step := Posted(w);
    case AwaitHost => step := Finished(w);
    case Create(_, _) => step := Posted(w);
    case Update(_, _) => step := Updated(w);
    case Await(_, _) => step := Finished(w);
    case Record(_, _) => step := Recorded(w);
    case Releasing(_) => step := Release(w);
  }

  /** A worker that can move: not one that waits for a slot when all are taken. */
  lemma Movable(cfg: Config, srv0: Server, s: State) returns (w: nat)
    requires Inv(cfg, srv0, s) && !AllEnded(s)
    ensures w < |s.pcs| && !s.pcs[w].Ended? && (s.pcs[w].Start? ==> s.sem < MAX_PARALLEL)
  {
    w :| w < |s.pcs| && !s.pcs[w].Ended?;
    if s.pcs[w].Start? && s.sem >= MAX_PARALLEL {
      w := HolderExists(s.pcs);
    }
  }

  /** A creation under way lands. */
  lemma Landed(cfg: Config, srv0: Server, s: State, w: nat) returns (steps: seq<Step>, t: State)
    requires GoodStart(cfg, srv0) && Inv(cfg, srv0, s) && AllAddressed(cfg) && Healthy(s) && w < |s.pcs|
    ensures AllSmooth(steps) && t == Run(cfg, s, steps) && Inv(cfg, srv0, t) && Healthy(t)
    ensures t.pcs == s.pcs && t.sem == s.sem && !t.sessions[w].InFlight?
  {
    steps, t := [], s;
    if s.sessions[w].InFlight? {
      var id := FreshExists(s.srv);
      var step := Land(w, id);
      RunOne(cfg, s, step);
      HealthyNext(cfg, srv0, s, step);
      steps, t := [step], Next(cfg, s, step);
    }
  }

  /** A step some worker can take, after its creation has landed if it waits for one. */
  lemma ReadyStep(cfg: Config, srv0: Server, s: State) returns (first: seq<Step>, landed: State, step: Step)
    requires GoodStart(cfg, srv0) && Inv(cfg, srv0, s) && AllAddressed(cfg) && Healthy(s) && !AllEnded(s)
    ensures AllSmooth(first) && landed == Run(cfg, s, first) && landed.pcs == s.pcs && Inv(cfg, srv0, landed) && Healthy(landed)
    ensures Smooth(step) && IsWorkerStep(step) && Enabled(cfg, landed, step)
  {
    var w := Movable(cfg, srv0, s);
    first, landed := Landed(cfg, srv0, s, w);
    assert WorkerInv(cfg, landed.srv, w, landed.pcs[w], landed.sessions[w]);
    step := SmoothStep(cfg, srv0, landed, w);
  }

  /** That step taken. */
  lemma Advance(cfg: Config, srv0: Server, s: State) returns (steps: seq<Step>, t: State)
    requires GoodStart(cfg, srv0) && Inv(cfg, srv0, s) && AllAddressed(cfg) && Healthy(s) && !AllEnded(s)
    ensures AllSmooth(steps) && t == Run(cfg, s, steps)
    ensures Inv(cfg, srv0, t) && Healthy(t) && TotalRank(t.pcs) < TotalRank(s.pcs)
  {
    hide Next, Run, TotalRank, Enabled, Inv, Healthy, GoodStart, AllEnded;
    var first, landed, step := ReadyStep(cfg, srv0, s);
    HealthyNext(cfg, srv0, landed, step);
    StepLowersRankStrictly(cfg, srv0, landed, step);
    t := Next(cfg, landed, step);
    steps := first + [step];
    RunConcat(cfg, s, first, [step]);
    RunOne(cfg, landed, step);
  }

  lemma StepLowersRankStrictly(cfg: Config, srv0: Server, s: State, step: Step)
    requires Inv(cfg, srv0, s) && IsWorkerStep(step) && Enabled(cfg, s, step)
    ensures TotalRank(Next(cfg, s, step).pcs) < TotalRank(s.pcs)
  {
    WorkerStepLowersRank(cfg, srv0, s, step);
  }

  lemma RunOne(cfg: Config, s: State, step: Step)
    ensures Run(cfg, s, [step]) == Next(cfg, s, step)
  {
    assert [step][1..] == [];
    assert Run(cfg, Next(cfg, s, step), []) == Next(cfg, s, step);
  }

  lemma {:induction false} RunConcat(cfg: Config, s: State, a: seq<Step>, b: seq<Step>)
    ensures Run(cfg, s, a + b) == Run(cfg, Run(cfg, s, a), b)
    decreases |a|
  {
    if a == [] {
      assert a + b == b;
    } else {
      assert (a + b)[1..] == a[1..] + b;
      RunConcat(cfg, Next(cfg, s, a[0]), a[1..], b);
    }
  }

  /** From every reachable state in which nothing has gone wrong, the run can still be brought to success,
      without a restart. */
  lemma {:induction false} CanSucceed(cfg: Config, srv0: Server, s: State) returns (steps: seq<Step>)
    requires GoodStart(cfg, srv0) && Inv(cfg, srv0, s) && AllAddressed(cfg) && Healthy(s)
    ensures AllSmooth(steps) && Success(Run(cfg, s, steps))
    decreases TotalRank(s.pcs)
  {
    steps := [];
    if !AllEnded(s) {
      var first, t := Advance(cfg, srv0, s);
      var rest := CanSucceed(cfg, srv0, t);
      steps := first + rest;
      RunConcat(cfg, s, first, rest);
    }
  }

  /** Whatever an interrupted run has left on the server, a further run can succeed, and leaves exactly what the
      topology called for at the very start. */
  lemma RerunSucceeds(cfg: Config, srv0: Server, before: seq<Step>) returns (again: seq<Step>)
    requires GoodStart(cfg, srv0) && AllAddressed(cfg)
    ensures AllSmooth(again)
    ensures var left := Run(cfg, Launch(cfg, srv0), before).srv; var end := Run(cfg, Launch(cfg, left), again);
      Success(end) && ViewIsExpected(cfg, srv0, end.srv) && ExactlyOneEach(cfg, end.srv) && Extends(left, end.srv)
  {
    var left := Run(cfg, Launch(cfg, srv0), before).srv;
    StartHasInv(cfg, srv0);
    RunKeepsInv(cfg, srv0, Launch(cfg, srv0), before);
    LaunchHasInv(cfg, srv0, left);
    again := CanSucceed(cfg, srv0, Launch(cfg, left));
    var end := Run(cfg, Launch(cfg, left), again);
    RunKeepsInv(cfg, srv0, Launch(cfg, left), again);
    SuccessIsExpected(cfg, srv0, end);
    StartHasInv(cfg, left);
    RunKeepsInv(cfg, left, Launch(cfg, left), again);
  }

  lemma SuccessIsExpected(cfg: Config, srv0: Server, s: State)
    requires GoodStart(cfg, srv0) && Inv(cfg, srv0, s) && Success(s)
    ensures ViewIsExpected(cfg, srv0, s.srv) && ExactlyOneEach(cfg, s.srv)
  {
    SuccessWiresAll(cfg, srv0, s);
    assert GoodNames(cfg);
    HostsAreExpected(cfg, srv0, s.srv);
    ReposAreExpected(cfg, srv0, s.srv);
    ProxiesAreExpected(cfg, srv0, s.srv);
  }

  // ---- nodes without an address ----

  /** Where the worker of a node without an address can stand. */
  predicate Addressless(pc: Pc) {
    pc.Start? || pc.Slot? || ((pc.Releasing? || pc.Ended?) && !pc.ending.Wired?)
  }

  lemma NextKeepsAddressless(cfg: Config, s: State, step: Step, w: nat)
    requires Shaped(cfg, s) && w < |s.pcs| && cfg.vias[w].ip == "" && Addressless(s.pcs[w])
    ensures Shaped(cfg, Next(cfg, s, step)) && Addressless(Next(cfg, s, step).pcs[w])
  {
    if Enabled(cfg, s, step) && IsWorkerStep(step) {
      assert Next(cfg, s, step) == Moved(s, step.w, WorkerMove(cfg, s, step));
    }
  }

  lemma {:induction false} RunKeepsAddressless(cfg: Config, s: State, steps: seq<Step>, w: nat)
    requires Shaped(cfg, s) && w < |s.pcs| && cfg.vias[w].ip == "" && Addressless(s.pcs[w])
    ensures Shaped(cfg, Run(cfg, s, steps)) && Addressless(Run(cfg, s, steps).pcs[w])
    decreases |steps|
  {
    if steps != [] {
      NextKeepsAddressless(cfg, s, steps[0], w);
      RunKeepsAddressless(cfg, Next(cfg, s, steps[0]), steps[1..], w);
    }
  }

  predicate SucceedsBy(cfg: Config, srv0: Server, steps: seq<Step>) { Success(Run(cfg, Launch(cfg, srv0), steps)) }

  /** A wiring can succeed exactly when every node has an address, whatever is on the server already. */
  lemma SuccessIsPossibleExactly(cfg: Config, srv0: Server)
    requires GoodStart(cfg, srv0)
    ensures (exists steps :: SucceedsBy(cfg, srv0, steps)) <==> AllAddressed(cfg)
  {
    if AllAddressed(cfg) {
      StartHasInv(cfg, srv0);
      var steps := CanSucceed(cfg, srv0, Launch(cfg, srv0));
      assert SucceedsBy(cfg, srv0, steps);
    } else {
      var w :| 0 <= w < |cfg.vias| && cfg.vias[w].ip == "";
      forall steps ensures !SucceedsBy(cfg, srv0, steps) {
        NoSuccessWithout(cfg, srv0, steps, w);
      }
    }
  }

  lemma NoSuccessWithout(cfg: Config, srv0: Server, steps: seq<Step>, w: nat)
    requires GoodStart(cfg, srv0) && w < |cfg.vias| && cfg.vias[w].ip == ""
    ensures !Success(Run(cfg, Launch(cfg, srv0), steps))
  {
    var s := Run(cfg, Launch(cfg, srv0), steps);
    StartHasInv(cfg, srv0);
    RunKeepsInv(cfg, srv0, Launch(cfg, srv0), steps);
    RunKeepsAddressless(cfg, Launch(cfg, srv0), steps, w);
    assert Unwired(s.pcs[w]) ==> s.done;
  }

  // ---- how often a creation is asked for ----

  /** Step refuses a creation of worker w because the components of its host are being updated. */
  predicate Refuses(cfg: Config, s: State, step: Step, w: nat) { step == Pending(w) && Enabled(cfg, s, step) }

  function Refusals(cfg: Config, s: State, steps: seq<Step>, w: nat): nat
    decreases |steps|
  {
    if steps == [] then 0 else (if Refuses(cfg, s, steps[0], w) then 1 else 0) + Refusals(cfg, Next(cfg, s, steps[0]), steps[1..], w)
  }

  /** Where a worker stands after n refusals. */
  predicate AfterRefusals(pc: Pc, n: nat) {
    && n <= 2
    && match pc
       case Create(_, attempt) => attempt == n + 1
       case Update(_, attempt) => attempt == n
       case Await(_, _) => true
       case ResolveRepo(_) => true
       case Record(_, _) => true
       case Releasing(_) => true
       case Ended(_) => true
       case _ => n == 0
  }

  lemma NextCountsRefusals(cfg: Config, s: State, step: Step, w: nat, n: nat)
    requires Shaped(cfg, s) && w < |s.pcs| && AfterRefusals(s.pcs[w], n) && !step.Restart?
    ensures Shaped(cfg, Next(cfg, s, step))
    ensures AfterRefusals(Next(cfg, s, step).pcs[w], if Refuses(cfg, s, step, w) then n + 1 else n)
  {
    if Enabled(cfg, s, step) && IsWorkerStep(step) {
      assert Next(cfg, s, step) == Moved(s, step.w, WorkerMove(cfg, s, step));
    }
  }

  lemma {:induction false} RunCountsRefusals(cfg: Config, s: State, steps: seq<Step>, w: nat, n: nat)
    requires Shaped(cfg, s) && w < |s.pcs| && AfterRefusals(s.pcs[w], n)
    requires forall k | 0 <= k < |steps| :: !steps[k].Restart?
    ensures Shaped(cfg, Run(cfg, s, steps)) && AfterRefusals(Run(cfg, s, steps).pcs[w], n + Refusals(cfg, s, steps, w))
    decreases |steps|
  {
    if steps != [] {
      NextCountsRefusals(cfg, s, steps[0], w, n);
      RunCountsRefusals(cfg, Next(cfg, s, steps[0]), steps[1..], w, if Refuses(cfg, s, steps[0], w) then n + 1 else n);
    }
  }

  /** A refused creation is asked for again, with a component update in between, exactly twice: in every run
      without a restart, a worker about to create can be refused without failing if and only if it has been
      refused fewer than two times. */
  lemma TwoRefusalsAreRetried(cfg: Config, srv: Server, steps: seq<Step>, w: nat)
    requires w < |cfg.vias| && forall k | 0 <= k < |steps| :: !steps[k].Restart?
    requires w < |Run(cfg, Launch(cfg, srv), steps).pcs| && Run(cfg, Launch(cfg, srv), steps).pcs[w].Create?
    ensures var s := Run(cfg, Launch(cfg, srv), steps); var refused := Refusals(cfg, Launch(cfg, srv), steps, w);
      && refused <= 2
      && (Enabled(cfg, s, Pending(w)) <==> refused < 2)
      && (refused < 2 ==> var again := Run(cfg, s, [Pending(w), Updated(w)]);
                          again == s.(pcs := s.pcs[w := Create(s.pcs[w].host, s.pcs[w].attempt + 1)]))
  {
    RunCountsRefusals(cfg, Launch(cfg, srv), steps, w, 0);
    var s := Run(cfg, Launch(cfg, srv), steps);
    if Enabled(cfg, s, Pending(w)) {
      AskedAgain(cfg, s, w);
    }
  }

  lemma AskedAgain(cfg: Config, s: State, w: nat)
    requires Enabled(cfg, s, Pending(w))
    ensures Run(cfg, s, [Pending(w), Updated(w)]) == s.(pcs := s.pcs[w := Create(s.pcs[w].host, s.pcs[w].attempt + 1)])
  {
    var mid := Next(cfg, s, Pending(w));
    assert [Pending(w), Updated(w)] == [Pending(w)] + [Updated(w)];
    RunConcat(cfg, s, [Pending(w)], [Updated(w)]);
    RunOne(cfg, s, Pending(w));
    RunOne(cfg, mid, Updated(w));
    assert s.sessions[w := s.sessions[w]] == s.sessions;
    assert s.pcs[w := Update(s.pcs[w].host, s.pcs[w].attempt)][w := Create(s.pcs[w].host, s.pcs[w].attempt + 1)]
        == s.pcs[w := Create(s.pcs[w].host, s.pcs[w].attempt + 1)];
  }
}
