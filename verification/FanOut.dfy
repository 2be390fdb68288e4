/** The wiring's fan-out: one worker per VIA node, four semaphore slots, a first-error cell with
    cancellation and a result list, over a shared backup server. The scheduler, the server and the network
    pick the steps; a step that is not enabled leaves the state as it is, so every sequence of steps is a
    schedule. */
module FanOut {
  import opened Topology
  import opened Vbr
  import Naming

  const MAX_PARALLEL: nat := 4
  const MAX_ATTEMPTS: nat := 3

  datatype Config = Config(vias: seq<Node>, path: string, days: nat, mount: Id)

  datatype Ending = Wired | Failed | Quit

  /** Where a worker stands; the host identifier is known from Target on. */
  datatype Pc =
    | Start                              // before the semaphore
    | Slot                               // holds a slot, before the cancellation test
    | WaitUp                             // dialling the node
    | FindHost
    | AddHost
    | AwaitHost                          // waiting for the host's session
    | ResolveHost
    | Target(host: Id)                   // looking for the repository or proxy
    | Create(host: Id, attempt: nat)
    | Update(host: Id, attempt: nat)     // refreshing the host's components
    | Await(host: Id, attempt: nat)      // waiting for the creation's session
    | ResolveRepo(host: Id)
    | Record(host: Id, repo: Id)
    | Releasing(ending: Ending)          // done, slot not yet given back
    | Ended(ending: Ending)

  /** The server's side of a worker's asynchronous creation. */
  datatype Session = Idle | InFlight(what: Creation) | Succeeded | Aborted

  datatype State = State(
    srv: Server,
    pcs: seq<Pc>,
    sessions: seq<Session>,
    sem: int,
    done: bool,                          // the fan-out's context is cancelled
    callerDone: bool,                    // the caller's context is
    firstErr: seq<nat>,                  // the worker whose error was recorded, at most one
    results: seq<(nat, Id)>)

  datatype Step =
    | Acquire(w: nat) | Skip(w: nat) | Check(w: nat) | Up(w: nat)
    | Found(w: nat, id: Id)              // a lookup answered
    | Posted(w: nat)                     // a creation was accepted
    | Pending(w: nat)                    // rejected: the host's components are updating
    | Updated(w: nat)
    | Finished(w: nat)                   // the awaited session reported success
    | Fails(w: nat)                      // the call or the wait returned an error
    | Recorded(w: nat) | Release(w: nat)
    | Land(w: nat, id: Id) | Abort(w: nat)
    | CallerCancels
    | Restart                            // the process stops here and the wiring is run again

  // ---- a worker's node ----

  function DutyAt(cfg: Config, w: nat): Duty
    requires w < |cfg.vias|
  {
    DutyOf(cfg.vias[w].role)
  }

  function RepoFor(cfg: Config, w: nat, host: Id): Repo
    requires w < |cfg.vias|
  {
    Repo(Naming.RepoName(cfg.vias, w), host, cfg.path, cfg.days, cfg.mount)
  }

  function CreationFor(cfg: Config, w: nat, host: Id): Creation
    requires w < |cfg.vias|
  {
    if DutyAt(cfg, w).HardenedRepo? then NewRepo(RepoFor(cfg, w, host)) else NewProxy(host)
  }

  function AfterHost(cfg: Config, w: nat, host: Id): Pc
    requires w < |cfg.vias|
  {
    if DutyAt(cfg, w).HostOnly? then Releasing(Wired) else Target(host)
  }

  // ---- initial states ----

  function Launch(cfg: Config, srv: Server): State {
    State(srv, seq(|cfg.vias|, _ => Start), seq(|cfg.vias|, _ => Idle), 0, false, false, [], [])
  }

  predicate Holds(pc: Pc) { !pc.Start? && !pc.Ended? }

  function Holders(pcs: seq<Pc>): nat {
    if pcs == [] then 0 else (if Holds(pcs[0]) then 1 else 0) + Holders(pcs[1..])
  }

  predicate AllEnded(s: State) {
    forall w | 0 <= w < |s.pcs| :: s.pcs[w].Ended?
  }

  predicate Shaped(cfg: Config, s: State) {
    |s.pcs| == |s.sessions| == |cfg.vias|
  }

  // ---- one step ----

  predicate CanFail(pc: Pc) {
    pc.FindHost? || pc.AddHost? || pc.AwaitHost? || pc.ResolveHost? || pc.Target? || pc.Create? || pc.Await? || pc.ResolveRepo?
  }

  predicate AnswerOk(cfg: Config, srv: Server, w: nat, pc: Pc, id: Id)
    requires w < |cfg.vias|
  {
    match pc
    case FindHost => FindsHost(srv, cfg.vias[w].ip, id)
    case ResolveHost => FindsHost(srv, cfg.vias[w].ip, id)
    case Target(host) =>
      if DutyAt(cfg, w).HardenedRepo? then FindsRepo(srv, Naming.RepoName(cfg.vias, w), id) else FindsProxy(srv, host, id)
    case ResolveRepo(_) => FindsRepo(srv, Naming.RepoName(cfg.vias, w), id)
    case _ => false
  }

  predicate Enabled(cfg: Config, s: State, step: Step) {
    && Shaped(cfg, s)
    && match step
       case CallerCancels => !s.callerDone
       case Restart => AllSettled(s)
       case Land(w, id) => w < |s.pcs| && s.sessions[w].InFlight? && Fresh(s.srv, id)
       case Abort(w) => w < |s.pcs| && s.sessions[w].InFlight?
       case _ =>
         && step.w < |s.pcs|
         && WorkerEnabled(cfg, s, step, s.pcs[step.w], s.sessions[step.w])
  }

  predicate WorkerEnabled(cfg: Config, s: State, step: Step, pc: Pc, session: Session)
    requires Shaped(cfg, s)
    requires !step.CallerCancels? && !step.Restart? && !step.Land? && !step.Abort? && step.w < |s.pcs|
  {
    match step
    case Acquire(_) => pc.Start? && s.sem < MAX_PARALLEL
    case Skip(_) => pc.Start? && s.done
    case Check(_) => pc.Slot?
    case Up(_) => pc.WaitUp?
    case Found(w, id) => AnswerOk(cfg, s.srv, w, pc, id)
    case Posted(_) => pc.AddHost? || pc.Create?
    case Pending(_) => pc.Create? && pc.attempt < MAX_ATTEMPTS
    case Updated(_) => pc.Update?
    case Finished(_) => (pc.AwaitHost? || pc.Await?) && session.Succeeded?
    case Fails(_) => CanFail(pc) || (pc.WaitUp? && s.done)
    case Recorded(_) => pc.Record?
    case Release(_) => pc.Releasing?
  }

  /** No creation is in flight on the server. */
  predicate AllSettled(s: State) {
    forall w | 0 <= w < |s.sessions| :: !s.sessions[w].InFlight?
  }

  /** The local half of a worker's step: its next position and session, whether it calls fail, what it
      records, and the change to the slot count. */
  datatype Move = Move(pc: Pc, session: Session, fails: bool, records: seq<Id>, slot: int)

  function Goto(pc: Pc, session: Session): Move { Move(pc, session, false, [], 0) }

  function Failing(session: Session): Move { Move(Releasing(Failed), session, true, [], 0) }

  function Answered(cfg: Config, w: nat, pc: Pc, session: Session, id: Id): Move
    requires w < |cfg.vias|
  {
    match pc
    case FindHost => Goto(if id == NONE then AddHost else AfterHost(cfg, w, id), session)
    case ResolveHost => if id == NONE then Failing(session) else Goto(AfterHost(cfg, w, id), session)
    case Target(host) =>
      if id == NONE then Goto(Create(host, 1), session)
      else Goto(if DutyAt(cfg, w).HardenedRepo? then Record(host, id) else Releasing(Wired), session)
    case ResolveRepo(host) => Goto(Record(host, id), session)
    case _ => Goto(pc, session)
  }

  function MoveOf(cfg: Config, w: nat, pc: Pc, session: Session, done: bool, step: Step): Move
    requires w < |cfg.vias|
  {
    match step
    case Acquire(_) => Goto(Slot, session).(slot := 1)
    case Skip(_) => Goto(Ended(Quit), session)
    case Check(_) =>
      if done then Goto(Releasing(Quit), session)
      else if cfg.vias[w].ip == "" then Failing(session)
      else Goto(WaitUp, session)
    case Up(_) => Goto(FindHost, session)
    case Found(_, id) => Answered(cfg, w, pc, session, id)
    case Posted(_) =>
      if pc.Create? then Goto(Await(pc.host, pc.attempt), InFlight(CreationFor(cfg, w, pc.host)))
      else Goto(AwaitHost, InFlight(NewHost(cfg.vias[w].ip)))
    case Pending(_) => if pc.Create? then Goto(Update(pc.host, pc.attempt), session) else Goto(pc, session)
    case Updated(_) => if pc.Update? then Goto(Create(pc.host, pc.attempt + 1), session) else Goto(pc, session)
    case Finished(_) =>
      if pc.Await?
      then Goto(if DutyAt(cfg, w).HardenedRepo? then ResolveRepo(pc.host) else Releasing(Wired), Idle)
      else Goto(ResolveHost, Idle)
    case Recorded(_) => if pc.Record? then Goto(Releasing(Wired), session).(records := [pc.repo]) else Goto(pc, session)
    case Release(_) => if pc.Releasing? then Goto(Ended(pc.ending), session).(slot := -1) else Goto(pc, session)
    case _ => Failing(session)
  }

  /** The shared half: slots, the first-error cell with its cancellation, the result list. */
  function Moved(s: State, w: nat, m: Move): State
    requires w < |s.pcs| && w < |s.sessions|
  {
    s.(pcs := s.pcs[w := m.pc],
       sessions := s.sessions[w := m.session],
       sem := s.sem + m.slot,
       firstErr := if m.fails && s.firstErr == [] then [w] else s.firstErr,
       done := s.done || (m.fails && s.firstErr == []),
       results := if m.records == [] then s.results else s.results + [(w, m.records[0])])
  }

  function Apply(cfg: Config, s: State, step: Step): State
    requires Shaped(cfg, s)
    requires !step.CallerCancels? && !step.Restart? ==> step.w < |s.pcs|
  {
    match step
    case CallerCancels => s.(callerDone := true, done := true)
    case Restart => Launch(cfg, s.srv)
    case Land(w, id) =>
      if s.sessions[w].InFlight?
      then s.(srv := Created(s.srv, s.sessions[w].what, id), sessions := s.sessions[w := Succeeded])
      else s
    case Abort(w) => s.(sessions := s.sessions[w := Aborted])
    case _ => Moved(s, step.w, MoveOf(cfg, step.w, s.pcs[step.w], s.sessions[step.w], s.done, step))
  }

  function Next(cfg: Config, s: State, step: Step): State {
    if Enabled(cfg, s, step) then Apply(cfg, s, step) else s
  }

  function Run(cfg: Config, s: State, steps: seq<Step>): State
    decreases |steps|
  {
    if steps == [] then s else Run(cfg, Next(cfg, s, steps[0]), steps[1..])
  }

  // ---- what the fan-out returns ----

  /** The identifier recorded for the lowest node index, NONE when nothing was recorded. */
  ghost predicate IsLowest(results: seq<(nat, Id)>, id: Id) {
    if results == [] then id == NONE
    else exists k | 0 <= k < |results| :: results[k].1 == id && forall m | 0 <= m < |results| :: results[k].0 <= results[m].0
  }

  /** The best-so-far loop over the result list: the lowest index wins, whatever the order of arrival. */
  method PickLowest(results: seq<(nat, Id)>) returns (id: Id)
    ensures IsLowest(results, id)
  {
    var best := -1;
    id := NONE;
    ghost var at := 0;
    for k := 0 to |results|
      invariant k == 0 ==> best == -1 && id == NONE
      invariant k > 0 ==> 0 <= at < k && results[at] == (best, id)
      invariant forall m | 0 <= m < k :: best <= results[m].0
    {
      if best == -1 || results[k].0 < best {
        best, id, at := results[k].0, results[k].1, k;
      }
    }
  }
}
