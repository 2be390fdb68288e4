/** Preservation of the fan-out's invariant by every step, and hence by every schedule. */
module FanOutSteps {
  import opened Topology
  import opened Vbr
  import opened FanOut
  import opened FanOutInvariant
  import Naming

  predicate IsWorkerStep(step: Step) {
    !step.CallerCancels? && !step.Restart? && !step.Land? && !step.Abort?
  }

  function WorkerMove(cfg: Config, s: State, step: Step): Move
    requires IsWorkerStep(step) && Shaped(cfg, s) && step.w < |s.pcs|
  {
    MoveOf(cfg, step.w, s.pcs[step.w], s.sessions[step.w], s.done, step)
  }

  /** A worker's step keeps its own invariant. */
  lemma WorkerStepOwn(cfg: Config, s: State, step: Step)
    requires IsWorkerStep(step) && Enabled(cfg, s, step)
    requires WorkerInv(cfg, s.srv, step.w, s.pcs[step.w], s.sessions[step.w])
    ensures var m := WorkerMove(cfg, s, step); WorkerInv(cfg, s.srv, step.w, m.pc, m.session)
  {
    var w, pc := step.w, s.pcs[step.w];
    match step
    case Found(_, id) =>
      match pc {
        case FindHost => if id != NONE { HostFound(cfg, s.srv, w, id); }
        case ResolveHost => if id != NONE { HostFound(cfg, s.srv, w, id); }
        case Target(h) => TargetAnswered(cfg, s.srv, w, h, id);
        case ResolveRepo(h) =>
        case _ =>
      }
    case Posted(_) =>
      if pc.Create? {
        assert HostOf(cfg, s.srv, w, pc.host);
        assert CreatableTarget(cfg, s.srv, w, CreationFor(cfg, w, pc.host));
      }
    case Finished(_) =>
      if pc.Await? {
        assert HostOf(cfg, s.srv, w, pc.host) && Equipped(cfg, s.srv, w, pc.host);
      }
    case Recorded(_) =>
      assert HostOf(cfg, s.srv, w, pc.host) && NamedRepo(cfg, s.srv, w, pc.repo);
      assert Equipped(cfg, s.srv, w, pc.host);
    case _ =>
  }

  lemma HostFound(cfg: Config, srv: Server, w: nat, id: Id)
    requires w < |cfg.vias| && id != NONE && FindsHost(srv, cfg.vias[w].ip, id)
    ensures WorkerInv(cfg, srv, w, AfterHost(cfg, w, id), Idle)
  {
    assert HostOf(cfg, srv, w, id);
    if DutyAt(cfg, w).HostOnly? {
      assert Equipped(cfg, srv, w, id);
    }
  }

  lemma TargetAnswered(cfg: Config, srv: Server, w: nat, h: Id, id: Id)
    requires w < |cfg.vias| && TargetPc(cfg, srv, w, h) && AnswerOk(cfg, srv, w, Target(h), id)
    ensures id == NONE ==> !Equipped(cfg, srv, w, h)
    ensures id != NONE ==> Equipped(cfg, srv, w, h)
    ensures id != NONE && DutyAt(cfg, w).HardenedRepo? ==> NamedRepo(cfg, srv, w, id)
    ensures id != NONE ==> NodeWired(cfg, srv, w)
  {
    if id != NONE {
      assert HostOf(cfg, srv, w, h);
      if DutyAt(cfg, w).HardenedRepo? {
        assert id in srv.repos && srv.repos[id].name == Naming.RepoName(cfg.vias, w);
      } else {
        assert id in srv.proxies && srv.proxies[id] == h;
      }
      assert Equipped(cfg, srv, w, h);
    }
  }

  lemma WorkerStepControl(cfg: Config, s: State, step: Step)
    requires IsWorkerStep(step) && Enabled(cfg, s, step) && ControlInv(cfg, s)
    ensures ControlInv(cfg, Apply(cfg, s, step))
  {
    var m := WorkerMove(cfg, s, step);
    HoldersUpdate(s.pcs, step.w, m.pc);
    SlotArithmetic(cfg, s, step);
    EndingsExplained(cfg, s, step);
  }

  /** The slot count follows the workers: only Acquire, Skip and Release cross the semaphore. */
  lemma SlotArithmetic(cfg: Config, s: State, step: Step)
    requires IsWorkerStep(step) && Enabled(cfg, s, step)
    ensures var m := WorkerMove(cfg, s, step);
      m.slot == (if Holds(m.pc) then 1 else 0) - (if Holds(s.pcs[step.w]) then 1 else 0)
    ensures WorkerMove(cfg, s, step).slot == 1 ==> s.sem < MAX_PARALLEL
  {
  }

  /** A worker ends without being wired only by failing or after a cancellation. */
  lemma EndingsExplained(cfg: Config, s: State, step: Step)
    requires IsWorkerStep(step) && Enabled(cfg, s, step)
    ensures var m := WorkerMove(cfg, s, step);
      && (m.fails <==> m.pc == Releasing(Failed))
      && (Unwired(m.pc) && !m.fails ==> s.done || s.pcs[step.w] == Releasing(m.pc.ending))
      && (m.pc == Ended(Failed) ==> s.pcs[step.w] == Releasing(Failed))
  {
  }

  lemma WorkerStepResults(cfg: Config, s: State, step: Step)
    requires IsWorkerStep(step) && Enabled(cfg, s, step) && ResultsInv(cfg, s)
    requires WorkerInv(cfg, s.srv, step.w, s.pcs[step.w], s.sessions[step.w])
    ensures ResultsInv(cfg, Apply(cfg, s, step))
  {
    var t, w := Apply(cfg, s, step), step.w;
    RecordedOnce(cfg, s, step);
    assert forall v | 0 <= v < |s.pcs| && v != w :: Recordable(cfg, t, v) == Recordable(cfg, s, v);
    forall v | 0 <= v < |t.pcs| && Recordable(cfg, t, v) ensures exists k :: 0 <= k < |t.results| && t.results[k].0 == v {
      if Recordable(cfg, s, v) {
        var k :| 0 <= k < |s.results| && s.results[k].0 == v;
        assert t.results[k].0 == v;
      } else {
        assert t.results[|s.results|].0 == v;
      }
    }
  }

  /** A hardened-repository worker is done exactly when it has appended its repository. */
  lemma RecordedOnce(cfg: Config, s: State, step: Step)
    requires IsWorkerStep(step) && Enabled(cfg, s, step)
    requires WorkerInv(cfg, s.srv, step.w, s.pcs[step.w], s.sessions[step.w])
    ensures var m, t, w := WorkerMove(cfg, s, step), Apply(cfg, s, step), step.w;
      && (Recordable(cfg, s, w) ==> Recordable(cfg, t, w))
      && (m.records == [] ==> Recordable(cfg, t, w) ==> Recordable(cfg, s, w))
      && (m.records != [] ==> Recordable(cfg, t, w) && NamedRepo(cfg, s.srv, w, m.records[0]))
  {
  }

  lemma WorkerStepKeepsInv(cfg: Config, srv0: Server, s: State, step: Step)
    requires IsWorkerStep(step) && Enabled(cfg, s, step) && Inv(cfg, srv0, s)
    ensures Inv(cfg, srv0, Apply(cfg, s, step))
  {
    WorkerStepOwn(cfg, s, step);
    WorkerStepControl(cfg, s, step);
    WorkerStepResults(cfg, s, step);
  }

  lemma LandKeepsWorkers(cfg: Config, srv0: Server, s: State, w: nat, id: Id)
    requires GoodStart(cfg, srv0) && Inv(cfg, srv0, s) && Enabled(cfg, s, Land(w, id))
    ensures var t := Apply(cfg, s, Land(w, id)); forall v | 0 <= v < |t.pcs| :: WorkerInv(cfg, t.srv, v, t.pcs[v], t.sessions[v])
  {
    var t, what := Apply(cfg, s, Land(w, id)), s.sessions[w].what;
    forall v | 0 <= v < |t.pcs| ensures WorkerInv(cfg, t.srv, v, t.pcs[v], t.sessions[v]) {
      if v == w {
        LandKeepsOwn(cfg, s.srv, w, what, id, s.pcs[w]);
      } else {
        LandKeepsOthers(cfg, s.srv, w, what, id, v, s.pcs[v], s.sessions[v]);
      }
    }
  }

  lemma LandKeepsControl(cfg: Config, s: State, w: nat, id: Id)
    requires Shaped(cfg, s) && ControlInv(cfg, s) && Enabled(cfg, s, Land(w, id))
    ensures ControlInv(cfg, Apply(cfg, s, Land(w, id)))
  {
  }

  lemma LandKeepsResults(cfg: Config, s: State, w: nat, id: Id)
    requires Shaped(cfg, s) && ResultsInv(cfg, s) && Enabled(cfg, s, Land(w, id))
    requires Extends(s.srv, Apply(cfg, s, Land(w, id)).srv)
    ensures ResultsInv(cfg, Apply(cfg, s, Land(w, id)))
  {
    var t := Apply(cfg, s, Land(w, id));
    assert forall v | 0 <= v < |t.pcs| :: Recordable(cfg, t, v) == Recordable(cfg, s, v);
    assert forall v, r | 0 <= v < |cfg.vias| && NamedRepo(cfg, s.srv, v, r) :: NamedRepo(cfg, t.srv, v, r);
  }

  lemma LandKeepsInv(cfg: Config, srv0: Server, s: State, w: nat, id: Id)
    requires GoodStart(cfg, srv0) && Inv(cfg, srv0, s) && Enabled(cfg, s, Land(w, id))
    ensures Inv(cfg, srv0, Apply(cfg, s, Land(w, id)))
  {
    LandKeepsServer(cfg, srv0, s.srv, w, s.sessions[w].what, id);
    LandGrows(cfg, s.srv, w, s.sessions[w].what, id);
    LandKeepsWorkers(cfg, srv0, s, w, id);
    LandKeepsControl(cfg, s, w, id);
    LandKeepsResults(cfg, s, w, id);
  }

  lemma LaunchHasInv(cfg: Config, srv0: Server, srv: Server)
    requires ServerInv(cfg, srv0, srv)
    ensures Inv(cfg, srv0, Launch(cfg, srv))
  {
    HoldersOfFresh(|cfg.vias|);
  }

  lemma AbortKeepsInv(cfg: Config, srv0: Server, s: State, w: nat)
    requires Inv(cfg, srv0, s) && Enabled(cfg, s, Abort(w))
    ensures Inv(cfg, srv0, Apply(cfg, s, Abort(w)))
  {
    var t := Apply(cfg, s, Abort(w));
    assert forall v | 0 <= v < |t.pcs| :: Recordable(cfg, t, v) == Recordable(cfg, s, v);
  }

  lemma CancelKeepsInv(cfg: Config, srv0: Server, s: State)
    requires Inv(cfg, srv0, s)
    ensures Inv(cfg, srv0, s.(callerDone := true, done := true))
  {
    var t := s.(callerDone := true, done := true);
    assert forall v | 0 <= v < |t.pcs| :: Recordable(cfg, t, v) == Recordable(cfg, s, v);
  }

  lemma EnvironmentKeepsInv(cfg: Config, srv0: Server, s: State, step: Step)
    requires GoodStart(cfg, srv0) && Inv(cfg, srv0, s) && Enabled(cfg, s, step) && !IsWorkerStep(step)
    ensures Inv(cfg, srv0, Apply(cfg, s, step))
  {
    match step
    case Land(w, id) => LandKeepsInv(cfg, srv0, s, w, id);
    case Abort(w) => AbortKeepsInv(cfg, srv0, s, w);
    case CallerCancels => CancelKeepsInv(cfg, srv0, s);
    case Restart => LaunchHasInv(cfg, srv0, s.srv);
  }

  /** Every step, enabled or not, keeps the invariant. */
  lemma NextKeepsInv(cfg: Config, srv0: Server, s: State, step: Step)
    requires GoodStart(cfg, srv0) && Inv(cfg, srv0, s)
    ensures Inv(cfg, srv0, Next(cfg, s, step))
  {
    if Enabled(cfg, s, step) {
      if IsWorkerStep(step) {
        WorkerStepKeepsInv(cfg, srv0, s, step);
      } else {
        EnvironmentKeepsInv(cfg, srv0, s, step);
      }
    }
  }

  lemma {:induction false} RunKeepsInv(cfg: Config, srv0: Server, s: State, steps: seq<Step>)
    requires GoodStart(cfg, srv0) && Inv(cfg, srv0, s)
    ensures Inv(cfg, srv0, Run(cfg, s, steps))
    decreases |steps|
  {
    if steps != [] {
      NextKeepsInv(cfg, srv0, s, steps[0]);
      RunKeepsInv(cfg, srv0, Next(cfg, s, steps[0]), steps[1..]);
    }
  }

  /** The state every schedule starts from satisfies the invariant. */
  lemma StartHasInv(cfg: Config, srv0: Server)
    requires GoodStart(cfg, srv0)
    ensures Inv(cfg, srv0, Launch(cfg, srv0))
  {
    LaunchHasInv(cfg, srv0, srv0);
  }
}
