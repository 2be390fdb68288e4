/** One deployment: the node-by-node run against a hypervisor whose operations may fail, cancellation arriving
    at any moment, and removal of what was created. */
module Deployment {

  datatype State = Pending | Running | Finished | Failed | Canceled | Removed

  datatype Step =
    | Queued | Uploading | CreatingVm | Attaching | Booting | Kickstarting
    | Created | Installing | Ready
    | NodeFailed | NodeCanceled | NodeRemoved

  datatype NodeStatus = NodeStatus(step: Step, vm: string, ip: string, error: string)

  datatype NodeSpec = NodeSpec(name: string, kickstart: bool, ip: string)

  datatype Spec = Spec(nodes: seq<NodeSpec>, powerOn: bool, wire: bool)

  /** What the outside world does at one moment: a user asks for a stop, the process shuts down, and an
      operation fails or brings a text. */
  datatype Moment = Moment(cancel: bool, shutdown: bool, fails: bool, text: string)

  /** Operations of the hypervisor and the wiring that succeeded, in order. */
  datatype Event =
    | IsoReady(node: nat)
    | VmCreated(vm: string)
    | IsoAttached(vm: string)
    | BootOrderSet(vm: string)
    | PoweredOn(vm: string)
    | KeysTyped(vm: string)
    | WiringDone
    | VmDestroyed(vm: string)

  predicate IsFinal(step: Step) { step.Created? || step.Installing? || step.Ready? }

  predicate InProgress(ns: NodeStatus) {
    match ns.step
    case Queued => ns.vm == ""
    case Uploading => ns.vm == ""
    case CreatingVm => true
    case Attaching => ns.vm != ""
    case Booting => ns.vm != ""
    case Kickstarting => ns.vm != ""
    case NodeFailed => true
    case NodeCanceled => true
    case _ => false
  }

  /** Nodes before k are in a final step and have a machine, node k is under way or was given up, later nodes
      have not been touched. */
  predicate Sequential(nodes: seq<NodeStatus>, k: nat) {
    && k <= |nodes|
    && (forall i | 0 <= i < k :: IsFinal(nodes[i].step) && nodes[i].vm != "")
    && (k < |nodes| ==> InProgress(nodes[k]))
    && (forall i | k < i < |nodes| :: nodes[i].step.Queued? && nodes[i].vm == "")
  }

  /** What a viewer of the deployment can see. */
  datatype View = View(state: State, nodes: seq<NodeStatus>, error: string)

  /** A view never shows nodes out of order, a failure without its error, a stop nobody asked for, or
      completion before every node is in a final step. */
  ghost predicate Honest(v: View, requested: bool) {
    && (exists k: nat :: Sequential(v.nodes, k))
    && (v.state.Failed? ==> v.error != "")
    && (v.state.Canceled? ==> requested)
    && (v.state.Finished? ==> Sequential(v.nodes, |v.nodes|))
  }

  ghost predicate AlwaysHonest(seen: seq<View>, requested: bool) {
    forall v | 0 <= v < |seen| :: Honest(seen[v], requested)
  }

  /** Two lists of nodes that differ at i at most. */
  predicate Elsewhere(a: seq<NodeStatus>, b: seq<NodeStatus>, i: nat) {
    |a| == |b| && forall j | 0 <= j < |a| && j != i :: a[j] == b[j]
  }

  lemma SeenAppends(seen: seq<View>, v: View, k: nat, requested: bool)
    requires AlwaysHonest(seen, requested) && Sequential(v.nodes, k)
    requires (v.state.Failed? ==> v.error != "") && (v.state.Canceled? ==> requested) && (v.state.Finished? ==> k == |v.nodes|)
    ensures AlwaysHonest(seen + [v], requested)
  {
    assert Honest(v, requested);
  }

  /** Every power-on comes after attaching the medium and setting the boot order of the same machine, every
      typing after the power-on. */
  predicate Ordered(trace: seq<Event>) {
    forall k | 0 <= k < |trace| ::
      && (trace[k].PoweredOn? ==> IsoAttached(trace[k].vm) in trace[..k] && BootOrderSet(trace[k].vm) in trace[..k])
      && (trace[k].KeysTyped? ==> PoweredOn(trace[k].vm) in trace[..k])
  }

  predicate MayFollow(trace: seq<Event>, e: Event) {
    && (e.PoweredOn? ==> IsoAttached(e.vm) in trace && BootOrderSet(e.vm) in trace)
    && (e.KeysTyped? ==> PoweredOn(e.vm) in trace)
  }

  lemma OrderedAppends(trace: seq<Event>, e: Event)
    requires Ordered(trace) && MayFollow(trace, e)
    ensures Ordered(trace + [e])
  {
    var t := trace + [e];
    assert t[..|trace|] == trace;
    assert forall k | 0 <= k < |trace| :: t[..k] == trace[..k];
  }

  /** How many machines creation succeeded for, and how many nodes show one. */
  function CountCreated(trace: seq<Event>): nat {
    if trace == [] then 0 else CountCreated(trace[..|trace| - 1]) + (if trace[|trace| - 1].VmCreated? then 1 else 0)
  }

  /** The machines destroyed, in order. */
  function DestroyedVms(trace: seq<Event>): seq<string> {
    if trace == [] then []
    else
      var last := trace[|trace| - 1];
      DestroyedVms(trace[..|trace| - 1]) + (if last.VmDestroyed? then [last.vm] else [])
  }

  lemma DestroyedAppends(trace: seq<Event>, e: Event)
    ensures DestroyedVms(trace + [e]) == DestroyedVms(trace) + (if e.VmDestroyed? then [e.vm] else [])
  {
    assert (trace + [e])[..|trace|] == trace;
  }

  /** The machines the nodes show, in order. */
  function Vms(nodes: seq<NodeStatus>): seq<string> {
    if nodes == [] then []
    else
      var last := nodes[|nodes| - 1];
      Vms(nodes[..|nodes| - 1]) + (if last.vm != "" then [last.vm] else [])
  }

  /** The first n identifiers the hypervisor hands out. */
  function FirstIds(ids: nat -> string, n: nat): (r: seq<string>)
    ensures |r| == n && forall k | 0 <= k < n :: r[k] == ids(k)
  {
    seq(n, k requires 0 <= k < n => ids(k))
  }

  /** Machines are created with the identifiers in the order they are handed out. */
  ghost predicate CreatedInOrder(trace: seq<Event>, ids: nat -> string) {
    forall k | 0 <= k < |trace| && trace[k].VmCreated? :: trace[k].vm == ids(CountCreated(trace[..k]))
  }

  lemma CreatedInOrderAppends(trace: seq<Event>, ids: nat -> string, e: Event)
    requires CreatedInOrder(trace, ids) && (e.VmCreated? ==> e.vm == ids(CountCreated(trace)))
    ensures CreatedInOrder(trace + [e], ids)
  {
    var t := trace + [e];
    assert t[..|trace|] == trace;
    assert forall k | 0 <= k < |trace| :: t[..k] == trace[..k];
  }

  lemma CreatedAppends(trace: seq<Event>, e: Event)
    ensures CountCreated(trace + [e]) == CountCreated(trace) + (if e.VmCreated? then 1 else 0)
  {
    assert (trace + [e])[..|trace|] == trace;
  }

  /** The first made nodes, and only they, have machines. */
  ghost predicate FirstHaveVms(nodes: seq<NodeStatus>, made: nat, ids: nat -> string) {
    && made <= |nodes|
    && (forall i: nat | i < made :: nodes[i].vm == ids(i))
    && (forall i | made <= i < |nodes| :: nodes[i].vm == "")
  }

  /** Node i's machine is shown. */
  lemma VmRecorded(nodes: seq<NodeStatus>, i: nat, ids: nat -> string, ns: NodeStatus)
    requires i < |nodes| && FirstHaveVms(nodes, i, ids) && ns.vm == ids(i)
    ensures FirstHaveVms(nodes[i := ns], i + 1, ids)
  {
  }

  /** A node under way stays the only one when its own status moves on. */
  lemma StillSequential(nodes: seq<NodeStatus>, i: nat, ns: NodeStatus)
    requires i < |nodes| && Sequential(nodes, i)
    ensures InProgress(ns) ==> Sequential(nodes[i := ns], i)
    ensures IsFinal(ns.step) && ns.vm != "" ==> Sequential(nodes[i := ns], i + 1)
  {
  }

  lemma {:induction false} VmsAreMade(nodes: seq<NodeStatus>, made: nat, ids: nat -> string)
    requires FirstHaveVms(nodes, made, ids) && forall i: nat :: ids(i) != ""
    ensures Vms(nodes) == FirstIds(ids, made)
  {
    if nodes != [] {
      var before := if made == |nodes| then made - 1 else made;
      VmsAreMade(nodes[..|nodes| - 1], before, ids);
      assert made == |nodes| ==> FirstIds(ids, made) == FirstIds(ids, made - 1) + [ids(made - 1)];
    }
  }

  lemma {:induction false} NoVmsLeft(nodes: seq<NodeStatus>)
    requires forall i | 0 <= i < |nodes| :: nodes[i].vm == ""
    ensures Vms(nodes) == []
  {
    if nodes != [] {
      NoVmsLeft(nodes[..|nodes| - 1]);
    }
  }

  lemma VmsPrefix(nodes: seq<NodeStatus>, k: nat)
    requires k < |nodes|
    ensures Vms(nodes[..k + 1]) == Vms(nodes[..k]) + (if nodes[k].vm != "" then [nodes[k].vm] else [])
  {
    assert nodes[..k + 1][..k] == nodes[..k];
  }

  lemma Nothing(s: seq<string>)
    ensures s + [] == s
  {
  }

  lemma OneMoreGone(a: seq<string>, b: seq<string>, x: string)
    ensures a + b + [x] == a + (b + [x])
    ensures multiset(b + [x]) == multiset(b) + multiset{x}
  {
  }

  /** An address that was given is shown throughout. */
  predicate AddressesKept(nodes: seq<NodeStatus>, spec: Spec)
    requires |nodes| == |spec.nodes|
  {
    forall i | 0 <= i < |nodes| && spec.nodes[i].ip != "" :: nodes[i].ip == spec.nodes[i].ip
  }

  /** How many of these nodes have to be polled for their address. */
  function Polls(nodes: seq<NodeStatus>): nat {
    if nodes == [] then 0 else Polls(nodes[..|nodes| - 1]) + (if nodes[|nodes| - 1].ip == "" then 1 else 0)
  }

  lemma PollsStep(nodes: seq<NodeStatus>, i: nat)
    requires i < |nodes|
    ensures Polls(nodes[..i + 1]) == Polls(nodes[..i]) + (if nodes[i].ip == "" then 1 else 0)
  {
    assert nodes[..i + 1][..i] == nodes[..i];
  }

  lemma NoPolls(nodes: seq<NodeStatus>)
    ensures Polls(nodes[..0]) == 0
  {
  }

  class Run {
    const spec: Spec
    const world: nat -> Moment
    const ids: nat -> string             // what the hypervisor hands out, in order
    const live: bool                     // false once reloaded from the store: no hypervisor connection

    var state: State
    var nodes: seq<NodeStatus>
    var error: string
    var canceled: bool                   // a stop was requested
    var published: bool                  // the run's cancel function is known
    var stopped: bool                    // the run's context is done
    var over: bool                       // the run has ended
    var trace: seq<Event>
    var tick: nat
    ghost var seen: seq<View>            // every state a viewer could have observed during the run
    ghost var requested: bool            // someone called Cancel
    ghost var start: nat                 // the moment the run began

    /** Something goes wrong at a moment: an operation fails, or brings nothing. */
    predicate Trouble(t: nat) { world(t).fails || world(t).text == "" }

    /** Something went wrong since the run began. */
    ghost predicate Troubled()
      reads `start, `tick
    {
      exists t: nat | start <= t < tick :: Trouble(t)
    }

    ghost predicate CancelIn(from: nat, to: nat) { exists t: nat | from <= t < to :: world(t).cancel }

    ghost predicate ShutdownIn(from: nat, to: nat) { exists t: nat | from <= t < to :: world(t).shutdown }

    /** While the run is under way and can be stopped, it is stopped exactly by a shutdown or a stop request
        since then, unless a stop was requested before. */
    ghost predicate Timely()
      reads this
    {
      && start <= tick
      && (published && !over ==>
            && start < tick && (canceled <==> CancelIn(start, tick))
            && (stopped <==> ShutdownIn(start, tick) || (!world(start).cancel && CancelIn(start + 1, tick))))
    }

    ghost predicate Valid()
      reads this
    {
      && |nodes| == |spec.nodes| && AddressesKept(nodes, spec)
      && (forall i: nat :: ids(i) != "") && (forall i: nat, j: nat | i < j :: ids(i) != ids(j))
      && Ordered(trace) && CreatedInOrder(trace, ids) && (!over ==> DestroyedVms(trace) == [])
      && (canceled ==> requested) && Timely()
      && AlwaysHonest(seen, requested)
    }

    /** A pending deployment, every node queued. */
    constructor (spec: Spec, world: nat -> Moment, ids: nat -> string)
      requires (forall i: nat :: ids(i) != "") && (forall i: nat, j: nat | i < j :: ids(i) != ids(j))
      ensures Handled(0) && this.spec == spec && this.ids == ids && live && state == Pending && error == "" && !over && !canceled && !stopped && !published && trace == []
      ensures nodes == seq(|spec.nodes|, i requires 0 <= i < |spec.nodes| => NodeStatus(Queued, "", spec.nodes[i].ip, ""))
      ensures FirstHaveVms(nodes, 0, this.ids)
    {
      this.spec, this.world, this.ids, this.live := spec, world, ids, true;
      state, error := Pending, "";
      nodes := seq(|spec.nodes|, i requires 0 <= i < |spec.nodes| => NodeStatus(Queued, "", spec.nodes[i].ip, ""));
      canceled, published, stopped, over := false, false, false, false;
      trace, tick, start := [], 0, 0;
      seen, requested := [], false;
    }

    // ---- cancellation ----

    /** A stop request. The first one cancels the run's context if it is published already; later ones do
        nothing, so a request that came too early is never made good. */
    method Cancel()
      modifies `canceled, `stopped, `requested
      ensures canceled && requested
      ensures stopped == (old(stopped) || (!old(canceled) && published))
    {
      requested := true;
      if canceled { return; }
      canceled := true;
      if published {
        stopped := true;
      }
    }

    /** One moment passes: a stop request or a shutdown may arrive. */
    method Pass() returns (now: Moment)
      requires Timely() && AlwaysHonest(seen, requested)
      modifies `canceled, `stopped, `requested, `tick
      ensures (canceled ==> requested || old(canceled)) && (old(canceled) ==> canceled) && (old(requested) ==> requested)
      ensures old(stopped) ==> stopped
      ensures now == world(old(tick)) && tick == old(tick) + 1 && Timely() && AlwaysHonest(seen, requested)
      ensures old(Troubled()) ==> Troubled()
      ensures canceled == (old(canceled) || now.cancel) && (!published ==> stopped == old(stopped))
    {
      now := world(tick);
      tick := tick + 1;
      if now.cancel {
        Cancel();
      }
      if now.shutdown && published {
        stopped := true;
      }
      assert forall from: nat | from < tick :: CancelIn(from, tick) <==> CancelIn(from, old(tick)) || now.cancel;
      assert forall from: nat | from < tick :: ShutdownIn(from, tick) <==> ShutdownIn(from, old(tick)) || now.shutdown;
    }

    // ---- what viewers see ----

    method SetState(s: State, ghost k: nat)
      requires Valid() && Sequential(nodes, k)
      requires (s.Failed? ==> error != "") && (s.Canceled? ==> canceled) && (s.Finished? ==> k == |nodes|)
      modifies `state, `seen
      ensures Valid() && state == s
      ensures seen == old(seen) + [View(state, nodes, error)]
    {
      state := s;
      SeenAppends(seen, View(state, nodes, error), k, requested);
      seen := seen + [View(state, nodes, error)];
    }

    method SetNode(i: nat, ns: NodeStatus, ghost k: nat)
      requires Valid() && state.Running? && i < |nodes| && Sequential(nodes[i := ns], k)
      requires spec.nodes[i].ip != "" ==> ns.ip == spec.nodes[i].ip
      modifies `nodes, `seen
      ensures Valid() && nodes == old(nodes)[i := ns]
      ensures seen == old(seen) + [View(state, nodes, error)]
    {
      nodes := nodes[i := ns];
      SeenAppends(seen, View(state, nodes, error), k, requested);
      seen := seen + [View(state, nodes, error)];
    }

    /** Calls the hypervisor; a success is recorded. */
    method Call(e: Event) returns (ok: bool, text: string)
      requires Valid() && MayFollow(trace, e) && (e.VmCreated? ==> e.vm == ids(CountCreated(trace))) && (e.VmDestroyed? ==> over)
      modifies `canceled, `stopped, `requested, `tick, `trace
      ensures Valid() && trace == (if ok then old(trace) + [e] else old(trace))
      ensures (old(canceled) ==> canceled) && (old(stopped) ==> stopped)
      ensures tick == old(tick) + 1 && text == world(old(tick)).text && (ok <==> !world(old(tick)).fails)
      ensures !ok ==> Troubled()
    {
      hide Ordered, CreatedInOrder, DestroyedVms, CountCreated, AddressesKept, MayFollow;
      var now := Pass();
      ok, text := !now.fails, now.text;
      if ok {
        OrderedAppends(trace, e);
        CreatedInOrderAppends(trace, ids, e);
        DestroyedAppends(trace, e);
        trace := trace + [e];
      }
      assert !ok ==> Trouble(old(tick));
    }

    // ---- one node ----

    /** Node i is under way; the first made nodes have machines. */
    ghost predicate Under(i: nat, made: nat)
      reads this
    {
      Valid() && state.Running? && i < |nodes| && Sequential(nodes, i) && FirstHaveVms(nodes, made, ids) && CountCreated(trace) == made
    }

    /** The node's machine exists and is shown. */
    ghost predicate HasVm(i: nat)
      reads this
    {
      Under(i, i + 1) && nodes[i].vm == ids(i)
    }

    method MakeReady(i: nat) returns (ok: bool, err: string)
      requires Under(i, i) && nodes[i].step.Queued?
      modifies `nodes, `seen, `canceled, `stopped, `requested, `tick, `trace
      ensures Under(i, i) && nodes[i] == old(nodes)[i].(step := Uploading, ip := spec.nodes[i].ip)
      ensures Elsewhere(old(nodes), nodes, i) && old(trace) <= trace
      ensures (old(canceled) ==> canceled) && (old(stopped) ==> stopped) && (ok ==> IsoReady(i) in trace)
      ensures !ok ==> Troubled()
    {
      hide Ordered, CreatedInOrder, DestroyedVms, CountCreated, AlwaysHonest, Timely, Honest, Troubled;
      StillSequential(nodes, i, nodes[i].(step := Uploading, ip := spec.nodes[i].ip));
      SetNode(i, nodes[i].(step := Uploading, ip := spec.nodes[i].ip), i);
      CreatedAppends(trace, IsoReady(i));
      ok, err := Call(IsoReady(i));
    }

    method CreateMachine(i: nat) returns (ok: bool, err: string)
      requires Under(i, i) && nodes[i].step.Uploading?
      modifies `nodes, `seen, `canceled, `stopped, `requested, `tick, `trace
      ensures if ok then HasVm(i) && nodes[i].step.CreatingVm? else Under(i, i)
      ensures Elsewhere(old(nodes), nodes, i) && old(trace) <= trace && (old(canceled) ==> canceled) && (old(stopped) ==> stopped)
      ensures !ok ==> Troubled()
    {
      hide Ordered, CreatedInOrder, DestroyedVms, CountCreated, AlwaysHonest, Timely, Honest, Troubled;
      StillSequential(nodes, i, nodes[i].(step := CreatingVm));
      SetNode(i, nodes[i].(step := CreatingVm), i);
      CreatedAppends(trace, VmCreated(ids(i)));
      ok, err := Call(VmCreated(ids(i)));
      if ok {
        var ns := nodes[i].(vm := ids(i));
        StillSequential(nodes, i, ns);
        VmRecorded(nodes, i, ids, ns);
        SetNode(i, ns, i);
      }
    }

    method AttachMedium(i: nat) returns (ok: bool, err: string)
      requires HasVm(i) && nodes[i].step.CreatingVm?
      modifies `nodes, `seen, `canceled, `stopped, `requested, `tick, `trace
      ensures HasVm(i) && nodes[i].step.Attaching? && Elsewhere(old(nodes), nodes, i) && old(trace) <= trace
      ensures (old(canceled) ==> canceled) && (old(stopped) ==> stopped) && (ok ==> IsoAttached(ids(i)) in trace)
      ensures !ok ==> Troubled()
    {
      hide Ordered, CreatedInOrder, DestroyedVms, CountCreated, AlwaysHonest, Timely, Honest, Troubled;
      StillSequential(nodes, i, nodes[i].(step := Attaching));
      SetNode(i, nodes[i].(step := Attaching), i);
      CreatedAppends(trace, IsoAttached(ids(i)));
      ok, err := Call(IsoAttached(ids(i)));
    }

    /** Disk first, then the medium. */
    method OrderBoot(i: nat) returns (ok: bool, err: string)
      requires HasVm(i) && nodes[i].step.Attaching?
      modifies `canceled, `stopped, `requested, `tick, `trace
      ensures HasVm(i) && old(trace) <= trace && (old(canceled) ==> canceled) && (old(stopped) ==> stopped) && (ok ==> BootOrderSet(ids(i)) in trace)
      ensures !ok ==> Troubled()
    {
      CreatedAppends(trace, BootOrderSet(ids(i)));
      ok, err := Call(BootOrderSet(ids(i)));
    }

    method Attach(i: nat) returns (ok: bool, err: string)
      requires HasVm(i) && nodes[i].step.CreatingVm?
      modifies `nodes, `seen, `canceled, `stopped, `requested, `tick, `trace
      ensures HasVm(i) && nodes[i].step.Attaching? && Elsewhere(old(nodes), nodes, i) && old(trace) <= trace
      ensures (old(canceled) ==> canceled) && (old(stopped) ==> stopped) && (ok ==> IsoAttached(ids(i)) in trace && BootOrderSet(ids(i)) in trace)
      ensures !ok ==> Troubled()
    {
      ok, err := AttachMedium(i);
      if ok {
        ok, err := OrderBoot(i);
      }
    }

    method PowerUp(i: nat) returns (ok: bool, err: string)
      requires HasVm(i) && nodes[i].step.Attaching? && IsoAttached(ids(i)) in trace && BootOrderSet(ids(i)) in trace
      modifies `nodes, `seen, `canceled, `stopped, `requested, `tick, `trace
      ensures HasVm(i) && nodes[i].step.Booting? && Elsewhere(old(nodes), nodes, i) && old(trace) <= trace
      ensures (old(canceled) ==> canceled) && (old(stopped) ==> stopped) && (ok ==> PoweredOn(ids(i)) in trace)
      ensures !ok ==> Troubled()
    {
      hide Ordered, CreatedInOrder, DestroyedVms, CountCreated, AlwaysHonest, Timely, Honest, Troubled;
      StillSequential(nodes, i, nodes[i].(step := Booting));
      SetNode(i, nodes[i].(step := Booting), i);
      CreatedAppends(trace, PoweredOn(ids(i)));
      ok, err := Call(PoweredOn(ids(i)));
    }

    /** Waits for the boot menu, unless the run is stopped meanwhile, and types the boot command. */
    method TypeBootCommand(i: nat) returns (ok: bool, err: string)
      requires HasVm(i) && nodes[i].step.Booting? && PoweredOn(ids(i)) in trace
      modifies `nodes, `seen, `canceled, `stopped, `requested, `tick, `trace
      ensures HasVm(i) && nodes[i].step.Kickstarting? && Elsewhere(old(nodes), nodes, i) && old(trace) <= trace
      ensures (old(canceled) ==> canceled) && (old(stopped) ==> stopped) && (ok ==> KeysTyped(ids(i)) in trace)
      ensures (!ok ==> stopped || Troubled()) && (old(stopped) ==> !ok)
    {
      hide Ordered, CreatedInOrder, DestroyedVms, CountCreated, AlwaysHonest, Timely, Honest, Troubled;
      StillSequential(nodes, i, nodes[i].(step := Kickstarting));
      SetNode(i, nodes[i].(step := Kickstarting), i);
      if stopped { return false, "context canceled"; }
      var now := Pass();
      if stopped && now.fails { return false, "context canceled"; }
      CreatedAppends(trace, KeysTyped(ids(i)));
      ok, err := Call(KeysTyped(ids(i)));
    }

    /** Whether the node is powered on by the run. */
    predicate Powers(i: nat)
      requires i < |spec.nodes|
    {
      spec.powerOn || spec.nodes[i].kickstart
    }

    /** A node left on is still installing; one left off is merely created. */
    method Conclude(i: nat)
      requires HasVm(i)
      modifies `nodes, `seen
      ensures Valid() && Sequential(nodes, i + 1) && FirstHaveVms(nodes, i + 1, ids)
      ensures Elsewhere(old(nodes), nodes, i) && nodes[i].step == (if Powers(i) then Installing else Created)
    {
      var ns := nodes[i].(step := if Powers(i) then Installing else Created);
      StillSequential(nodes, i, ns);
      VmRecorded(old(nodes)[i := nodes[i].(vm := "")], i, ids, ns);
      assert old(nodes)[i := nodes[i].(vm := "")][i := ns] == nodes[i := ns];
      SetNode(i, ns, i + 1);
    }

    /** Power and keystrokes, as far as the node asks for them. */
    method Boot(i: nat) returns (ok: bool, err: string)
      requires HasVm(i) && nodes[i].step.Attaching? && IsoAttached(ids(i)) in trace && BootOrderSet(ids(i)) in trace
      modifies `nodes, `seen, `canceled, `stopped, `requested, `tick, `trace
      ensures HasVm(i) && Elsewhere(old(nodes), nodes, i) && old(trace) <= trace && (old(canceled) ==> canceled) && (old(stopped) ==> stopped)
      ensures ok ==> (Powers(i) ==> PoweredOn(ids(i)) in trace) && (spec.nodes[i].kickstart ==> KeysTyped(ids(i)) in trace)
      ensures (!ok ==> Troubled() || stopped) && (old(stopped) && spec.nodes[i].kickstart ==> !ok)
    {
      ok, err := true, "";
      if Powers(i) {
        ok, err := PowerUp(i);
        if ok && spec.nodes[i].kickstart {
          ok, err := TypeBootCommand(i);
        }
      }
    }

    /** From the created machine to the node's final step. */
    method BringUp(i: nat) returns (ok: bool, err: string)
      requires HasVm(i) && nodes[i].step.CreatingVm?
      modifies `nodes, `seen, `canceled, `stopped, `requested, `tick, `trace
      ensures Elsewhere(old(nodes), nodes, i) && old(trace) <= trace && (old(canceled) ==> canceled) && (old(stopped) ==> stopped)
      ensures Valid() && FirstHaveVms(nodes, i + 1, ids) && CountCreated(trace) == i + 1
      ensures ok ==> Sequential(nodes, i + 1) && nodes[i].step == (if Powers(i) then Installing else Created)
      ensures ok ==> (Powers(i) ==> PoweredOn(ids(i)) in trace) && (spec.nodes[i].kickstart ==> KeysTyped(ids(i)) in trace)
      ensures !ok ==> Sequential(nodes, i)
      ensures (!ok ==> Troubled() || stopped) && (old(stopped) && spec.nodes[i].kickstart ==> !ok)
      ensures ok ==> IsoAttached(ids(i)) in trace && BootOrderSet(ids(i)) in trace
    {
      ok, err := Attach(i);
      if !ok { return; }
      ok, err := Boot(i);
      if !ok { return; }
      Conclude(i);
    }

    /** The sequence for node i: medium, machine, attaching, boot order, power, keystrokes. */
    method DeployNode(i: nat) returns (ok: bool, err: string)
      requires Under(i, i) && nodes[i].step.Queued?
      modifies `nodes, `seen, `canceled, `stopped, `requested, `tick, `trace
      ensures Elsewhere(old(nodes), nodes, i) && old(trace) <= trace && (old(canceled) ==> canceled) && (old(stopped) ==> stopped)
      ensures Valid() && i <= CountCreated(trace) <= i + 1 && FirstHaveVms(nodes, CountCreated(trace), ids)
      ensures ok ==> CountCreated(trace) == i + 1
      ensures ok ==> Sequential(nodes, i + 1) && nodes[i].step == (if Powers(i) then Installing else Created)
      ensures ok ==> (Powers(i) ==> PoweredOn(ids(i)) in trace) && (spec.nodes[i].kickstart ==> KeysTyped(ids(i)) in trace)
      ensures !ok ==> Sequential(nodes, i)
      ensures (!ok ==> Troubled() || stopped) && (old(stopped) && spec.nodes[i].kickstart ==> !ok)
      ensures ok ==> IsoReady(i) in trace && IsoAttached(ids(i)) in trace && BootOrderSet(ids(i)) in trace
    {
      ok, err := MakeReady(i);
      if !ok { return; }
      ok, err := CreateMachine(i);
      if !ok { return; }
      ok, err := BringUp(i);
    }

    // ---- the run ----

    /** The nodes that have been handled, one by one. */
    ghost predicate Handled(n: nat)
      reads this
    {
      && Valid() && n <= |nodes| && Sequential(nodes, n) && FirstHaveVms(nodes, n, ids) && CountCreated(trace) == n
      && (n < |nodes| ==> nodes[n].step.Queued?)
      && (forall i: nat | i < n :: nodes[i].step == (if Powers(i) then Installing else Created))
      && (forall i: nat | i < n :: IsoReady(i) in trace && IsoAttached(ids(i)) in trace && BootOrderSet(ids(i)) in trace)
      && (forall i: nat | i < n :: Powers(i) ==> PoweredOn(ids(i)) in trace)
      && (forall i: nat | i < n :: spec.nodes[i].kickstart ==> KeysTyped(ids(i)) in trace)
    }

    /** The error names node i and says why it failed. */
    predicate Blames(i: nat)
      requires i < |nodes| && i < |spec.nodes|
      reads `nodes, `error
    {
      nodes[i].step.NodeFailed? && error == "node " + spec.nodes[i].name + ": " + nodes[i].error
    }

    /** What a run whose nodes are all deployed can still fail at: their addresses, and then the wiring. */
    ghost function LastHurdle(): string
      reads `nodes
    {
      if exists i | 0 <= i < |nodes| :: nodes[i].ip == "" then "ip resolution" else "wiring"
    }

    /** The error says what failed. */
    ghost predicate Explained()
      reads `nodes, `error
    {
      || (exists i: nat | i < |nodes| && i < |spec.nodes| :: Blames(i))
      || (Sequential(nodes, |nodes|) && spec.wire && spec.powerOn && LastHurdle() + ": " <= error)
    }

    /** What every way of ending the run leaves behind. */
    ghost predicate Ended()
      reads this
    {
      && Valid() && (exists k: nat :: Sequential(nodes, k)) && FirstHaveVms(nodes, CountCreated(trace), ids)
      && (state.Failed? || state.Canceled? || state.Finished?)
      && (state.Failed? ==> error != "" && Explained())
      && (state.Canceled? ==> canceled && requested)
      && (!state.Finished? ==> Troubled() || stopped)
    }

    /** Marks a node as given up. */
    method MarkNode(i: nat, step: Step, err: string)
      requires Valid() && state.Running? && i < |nodes| && Sequential(nodes, i) && FirstHaveVms(nodes, CountCreated(trace), ids)
      requires step.NodeCanceled? || step.NodeFailed?
      modifies `nodes, `seen
      ensures Valid() && Sequential(nodes, i) && FirstHaveVms(nodes, CountCreated(trace), ids)
      ensures nodes == old(nodes)[i := old(nodes)[i].(step := step, error := err)]
    {
      hide Ordered, CreatedInOrder, DestroyedVms, CountCreated;
      StillSequential(nodes, i, nodes[i].(step := step, error := err));
      SetNode(i, nodes[i].(step := step, error := err), i);
    }

    /** Gives a node up: stopped if a stop was requested, failed otherwise. */
    method GiveUp(i: nat, err: string)
      requires Valid() && state.Running? && i < |nodes| && Sequential(nodes, i) && FirstHaveVms(nodes, CountCreated(trace), ids) && (Troubled() || stopped)
      modifies `nodes, `seen, `canceled, `stopped, `requested, `tick, `error, `state
      ensures Ended() && !state.Finished?
      ensures if canceled then state.Canceled? && nodes == old(nodes)[i := old(nodes)[i].(step := NodeCanceled)]
              else state.Failed? && nodes == old(nodes)[i := old(nodes)[i].(step := NodeFailed, error := err)]
                   && error == "node " + spec.nodes[i].name + ": " + err
    {
      hide Ordered, CreatedInOrder, DestroyedVms, CountCreated, AlwaysHonest, Timely, Honest, Troubled, AddressesKept, FirstHaveVms;
      var now := Pass();
      if canceled {
        MarkNode(i, NodeCanceled, nodes[i].error);
        SetState(Canceled, i);
      } else {
        MarkNode(i, NodeFailed, err);
        error := "node " + spec.nodes[i].name + ": " + err;
        SetState(Failed, i);
        assert Blames(i);
        assert Explained();
      }
    }

    /** Ends the run after all nodes are deployed, for want of an address or of the wiring. */
    method Abandon(what: string, err: string)
      requires Handled(|nodes|) && state.Running? && what == LastHurdle() && spec.wire && spec.powerOn && (Troubled() || stopped)
      modifies `seen, `canceled, `stopped, `requested, `tick, `error, `state
      ensures Ended() && !state.Finished?
      ensures if canceled then state.Canceled? else state.Failed? && error == what + ": " + err
    {
      hide Ordered, CreatedInOrder, DestroyedVms, CountCreated, AlwaysHonest, Timely, Honest, Troubled, AddressesKept, FirstHaveVms;
      var now := Pass();
      if canceled {
        SetState(Canceled, |nodes|);
      } else {
        error := what + ": " + err;
        SetState(Failed, |nodes|);
      }
    }

    /** Deploys node i and carries the bookkeeping over to the next one. */
    method HandleNode(i: nat) returns (ok: bool, err: string)
      requires Handled(i) && state.Running? && i < |nodes|
      modifies `nodes, `seen, `canceled, `stopped, `requested, `tick, `trace
      ensures |nodes| == |old(nodes)|
      ensures if ok then Handled(i + 1) else Valid() && Sequential(nodes, i) && FirstHaveVms(nodes, CountCreated(trace), ids)
      ensures (!ok ==> Troubled() || stopped) && (old(stopped) && spec.nodes[i].kickstart ==> !ok)
    {
      ghost var so := trace;
      ok, err := DeployNode(i);
      assert forall e | e in so :: e in trace;
    }

    method DeployAll() returns (ok: bool)
      requires Handled(0) && state.Running? && |nodes| == |spec.nodes|
      modifies this
      ensures published == old(published) && over == old(over) && start == old(start)
      ensures |nodes| == |spec.nodes|
      ensures if ok then Handled(|nodes|) && state.Running? && error == old(error) else Ended() && !state.Finished?
    {
      hide Ordered, CreatedInOrder, CountCreated, DestroyedVms, FirstHaveVms, AddressesKept, AlwaysHonest, Timely, Handled, Ended;
      for i := 0 to |spec.nodes|
        invariant Handled(i) && |nodes| == |spec.nodes| && state.Running? && error == old(error) && published == old(published) && over == old(over) && start == old(start)
      {
        var done, err := HandleNode(i);
        if !done {
          GiveUp(i, err);
          return false;
        }
      }
      ok := true;
    }

    /** Polls for the address of every node without one: a known address stays, a polled one is its poll's
        answer, and nothing else changes. */
    method ResolveAddresses() returns (ok: bool, err: string)
      requires Handled(|nodes|) && state.Running?
      modifies `nodes, `seen, `canceled, `stopped, `requested, `tick
      ensures Handled(|nodes|) && |nodes| == |old(nodes)|
      ensures ok || exists i | 0 <= i < |nodes| :: nodes[i].ip == ""
      ensures ok ==> forall i: nat | i < |nodes| :: Resolved(old(nodes), i, old(tick), nodes[i]) && nodes[i].ip != ""
      ensures !ok ==> Troubled()
    {
      hide Handled, Polls;
      NoPolls(nodes);
      for i := 0 to |nodes|
        invariant Handled(|nodes|) && |nodes| == |old(nodes)| && state.Running? && tick == old(tick) + Polls(old(nodes)[..i])
        invariant forall j: nat | j < i :: Resolved(old(nodes), j, old(tick), nodes[j]) && nodes[j].ip != ""
        invariant forall j: nat | i <= j < |nodes| :: nodes[j] == old(nodes)[j]
      {
        PollsStep(old(nodes), i);
        if nodes[i].ip == "" {
          var known := PollNode(i);
          if !known { return false, "waiting for IP"; }
        }
      }
      ok, err := true, "";
    }

    /** One poll for node i's address. */
    method PollNode(i: nat) returns (known: bool)
      requires Handled(|nodes|) && state.Running? && i < |nodes| && nodes[i].ip == ""
      modifies `nodes, `seen, `canceled, `stopped, `requested, `tick
      ensures Handled(|nodes|) && tick == old(tick) + 1 && (known <==> world(old(tick)).text != "")
      ensures nodes == if known then old(nodes)[i := old(nodes)[i].(ip := world(old(tick)).text)] else old(nodes)
      ensures !known ==> Troubled()
    {
      hide Ordered, CreatedInOrder, DestroyedVms, CountCreated;
      var now := Pass();
      known := now.text != "";
      assert !known ==> Trouble(old(tick));
      if known {
        SetNode(i, nodes[i].(ip := now.text), |nodes|);
      }
    }

    /** Node i after polling that started at moment `from`. */
    ghost predicate Resolved(before: seq<NodeStatus>, i: nat, from: nat, after: NodeStatus)
      requires i < |before|
    {
      after == if before[i].ip != "" then before[i] else before[i].(ip := world(from + Polls(before[..i])).text)
    }

    /** After the wiring every node left installing is ready. */
    method Promote()
      requires Valid() && state.Running? && Sequential(nodes, |nodes|) && FirstHaveVms(nodes, |nodes|, ids)
      modifies `nodes, `seen
      ensures Valid() && Sequential(nodes, |nodes|) && FirstHaveVms(nodes, |nodes|, ids) && |nodes| == |old(nodes)|
      ensures forall i | 0 <= i < |nodes| :: nodes[i] == old(nodes)[i].(step := if old(nodes)[i].step.Installing? then Ready else old(nodes)[i].step)
    {
      for i := 0 to |nodes|
        invariant Valid() && Sequential(nodes, |nodes|) && FirstHaveVms(nodes, |nodes|, ids) && |nodes| == |old(nodes)|
        invariant forall j | 0 <= j < i :: nodes[j] == old(nodes)[j].(step := if old(nodes)[j].step.Installing? then Ready else old(nodes)[j].step)
        invariant forall j | i <= j < |nodes| :: nodes[j] == old(nodes)[j]
      {
        if nodes[i].step.Installing? {
          SetNode(i, nodes[i].(step := Ready), |nodes|);
        }
      }
    }

    /** Every node is in a final step with its machine. */
    ghost predicate Completed()
      reads this
    {
      Valid() && state.Running? && Sequential(nodes, |nodes|) && FirstHaveVms(nodes, |nodes|, ids) && CountCreated(trace) == |nodes|
    }

    /** The wiring call itself, then promotion. */
    method CallWiring() returns (ok: bool, err: string)
      requires Handled(|nodes|) && state.Running? && spec.powerOn && forall i | 0 <= i < |nodes| :: nodes[i].ip != ""
      modifies `nodes, `seen, `canceled, `stopped, `requested, `tick, `trace
      ensures !ok ==> Handled(|nodes|) && forall i | 0 <= i < |nodes| :: nodes[i].ip != ""
      ensures ok ==> Completed() && WiringDone in trace && forall i | 0 <= i < |nodes| :: nodes[i].step.Ready? && nodes[i].ip != ""
      ensures !ok ==> Troubled()
    {
      hide Ordered, CreatedInOrder, DestroyedVms, CountCreated, AddressesKept, AlwaysHonest, Timely;
      CreatedAppends(trace, WiringDone);
      ok, err := Call(WiringDone);
      if ok {
        Promote();
      }
    }

    /** Addresses, then the wiring, then promotion. */
    method WireTopology() returns (ok: bool)
      requires Handled(|nodes|) && state.Running? && spec.wire && spec.powerOn
      modifies this
      ensures published == old(published) && over == old(over) && start == old(start)
      ensures !ok ==> Ended() && !state.Finished?
      ensures ok ==> Completed()
      ensures ok ==> WiringDone in trace && forall i | 0 <= i < |nodes| :: nodes[i].step.Ready? && nodes[i].ip != ""
    {
      hide Ordered, CreatedInOrder, DestroyedVms, CountCreated, AlwaysHonest, Timely, Honest, Troubled, AddressesKept, FirstHaveVms, Explained;
      var err;
      ok, err := ResolveAddresses();
      if !ok {
        Abandon("ip resolution", err);
        return;
      }
      ok, err := CallWiring();
      if !ok {
        Abandon("wiring", err);
      }
    }

    /** Deploys the nodes and, when asked to, wires them. */
    method Work() returns (ok: bool)
      requires Handled(0) && state.Running?
      modifies this
      ensures published == old(published) && over == old(over) && start == old(start)
      ensures if ok then Completed() else Ended() && !state.Finished?
      ensures ok && spec.wire && spec.powerOn ==> WiringDone in trace && forall i | 0 <= i < |nodes| :: nodes[i].step.Ready? && nodes[i].ip != ""
    {
      ok := DeployAll();
      if ok && spec.wire && spec.powerOn {
        ok := WireTopology();
      }
    }

    /** The run starts. */
    method Begin()
      requires Handled(0) && state.Pending? && !published && !canceled && !stopped && !over
      modifies this
      ensures Handled(0) && state.Running? && published && !over && start == old(tick)
    {
      SetState(Running, 0);
      Publish();
    }

    /** One moment passes before the way to stop the run is published. */
    method Publish()
      requires Handled(0) && !published && !canceled && !stopped && !over
      modifies `start, `tick, `canceled, `stopped, `requested, `published
      ensures Handled(0) && published && start == old(tick)
    {
      hide Ordered, CreatedInOrder, DestroyedVms, CountCreated, AddressesKept, FirstHaveVms, AlwaysHonest, Sequential;
      start := tick;
      var early := Pass();
      published, stopped := true, early.shutdown;
    }

    /** The whole run. It completes unless something goes wrong, and then with every node in a final step and the
        requested wiring done; it ends as stopped only if somebody asked, and as failed only with an error. Its
        context is done exactly on a shutdown or a stop request after its beginning, unless a stop was requested
        right at the beginning. */
    method Execute()
      requires Handled(0) && state.Pending? && !published && !canceled && !stopped && error == "" && !over
      modifies this
      ensures Ended() && over && DestroyedVms(trace) == []
      ensures start == old(tick) < tick && published && (canceled <==> CancelIn(start, tick))
      ensures stopped <==> ShutdownIn(start, tick) || (!world(start).cancel && CancelIn(start + 1, tick))
      ensures state.Finished? ==> Sequential(nodes, |nodes|) && CountCreated(trace) == |nodes|
      ensures state.Finished? && spec.wire && spec.powerOn ==>
                WiringDone in trace && forall i | 0 <= i < |nodes| :: nodes[i].step.Ready? && nodes[i].ip != ""
    {
      hide Ordered, CreatedInOrder, DestroyedVms, CountCreated, AlwaysHonest, Honest, Troubled, AddressesKept, FirstHaveVms, Explained;
      Begin();
      var ok := Work();
      if ok {
        SetState(Finished, |nodes|);
      }
      over := true;
    }

    // ---- removal ----

    /** Destroys every machine the nodes show, then forgets them all. Each machine shown is either destroyed or
        reported; a deployment without a live hypervisor destroys and reports nothing. */
    method Remove() returns (removed: nat, errors: seq<string>, ghost gone: seq<string>)
      requires Valid() && over
      modifies this
      ensures multiset(gone) + multiset(errors) == if live then multiset(Vms(old(nodes))) else multiset{}
      ensures removed == |gone| && DestroyedVms(trace) == DestroyedVms(old(trace)) + gone
      ensures CountCreated(trace) == CountCreated(old(trace)) && (!live ==> trace == old(trace))
      ensures state.Removed? && over && Valid() && |nodes| == |old(nodes)| && canceled && requested
      ensures old(published) && !old(canceled) ==> stopped
      ensures forall i | 0 <= i < |nodes| :: nodes[i] == old(nodes)[i].(step := NodeRemoved, vm := "")
      ensures Vms(nodes) == []
    {
      hide Ordered, CreatedInOrder, CountCreated, DestroyedVms, Vms;
      Cancel();
      removed, errors, gone := 0, [], [];
      Nothing(DestroyedVms(trace));
      if live {
        removed, errors, gone := DestroyAll();
      }
      state := Removed;
      nodes := seq(|nodes|, i requires 0 <= i < |nodes| reads this => nodes[i].(step := NodeRemoved, vm := ""));
      NoVmsLeft(nodes);
    }

    /** One destroy call per machine; a failure is reported and the loop goes on. */
    method DestroyAll() returns (removed: nat, errors: seq<string>, ghost gone: seq<string>)
      requires Valid() && over
      modifies `canceled, `stopped, `requested, `tick, `trace
      ensures (old(canceled) ==> canceled) && (old(stopped) ==> stopped)
      ensures Valid() && CountCreated(trace) == CountCreated(old(trace)) && multiset(gone) + multiset(errors) == multiset(Vms(nodes))
      ensures removed == |gone| && DestroyedVms(trace) == DestroyedVms(old(trace)) + gone
    {
      hide Ordered, CreatedInOrder, AlwaysHonest, CountCreated, DestroyedVms, Vms, Timely, AddressesKept, Troubled;
      removed, errors, gone := 0, [], [];
      NoVmsLeft(nodes[..0]);
      Nothing(DestroyedVms(trace));
      for i := 0 to |nodes|
        invariant CountCreated(trace) == CountCreated(old(trace)) && (old(canceled) ==> canceled) && (old(stopped) ==> stopped)
        invariant Valid() && multiset(gone) + multiset(errors) == multiset(Vms(nodes[..i]))
        invariant removed == |gone| && DestroyedVms(trace) == DestroyedVms(old(trace)) + gone
      {
        VmsPrefix(nodes, i);
        if nodes[i].vm != "" {
          DestroyedAppends(trace, VmDestroyed(nodes[i].vm));
          CreatedAppends(trace, VmDestroyed(nodes[i].vm));
          var ok, err := Call(VmDestroyed(nodes[i].vm));
          if ok {
            OneMoreGone(DestroyedVms(old(trace)), gone, nodes[i].vm);
            removed, gone := removed + 1, gone + [nodes[i].vm];
          } else {
            errors := errors + [nodes[i].vm];
          }
        }
      }
      assert nodes[..|nodes|] == nodes;
    }
  }

  /** A stop requested before the run has published its cancel function is lost, and asking again does not
      bring it back. */
  method LostStop(run: Run)
    requires !run.published && !run.stopped
    modifies run
    ensures run.canceled && run.published && !run.stopped
  {
    run.Cancel();
    run.published := true;
    run.Cancel();
  }

  lemma NothingLeft(a: seq<string>, b: seq<string>)
    requires multiset(a) + multiset(b) == multiset{}
    ensures a == [] && b == []
  {
    assert forall x | x in a :: x in multiset(a) + multiset(b);
    assert forall x | x in b :: x in multiset(a) + multiset(b);
  }

  /** Removing twice removes once: the second time there is nothing to destroy or report. */
  method RemoveTwice(run: Run) returns (errors: seq<string>, ghost gone: seq<string>)
    requires run.Valid() && run.over && run.live
    modifies run
    ensures multiset(gone) + multiset(errors) == multiset(Vms(old(run.nodes)))
    ensures DestroyedVms(run.trace) == DestroyedVms(old(run.trace)) + gone && CountCreated(run.trace) == CountCreated(old(run.trace))
    ensures Vms(run.nodes) == [] && run.Valid()
  {
    hide Run.Valid, CountCreated, DestroyedVms, Vms;
    var removed, again;
    ghost var more;
    removed, errors, gone := run.Remove();
    removed, again, more := run.Remove();
    NothingLeft(more, again);
    Nothing(DestroyedVms(old(run.trace)) + gone);
  }

  /** From start to removal: the machines whose creation succeeded are the first the hypervisor handed out, so
      pairwise different; each of them is either destroyed or reported, once, and removing again destroys and
      reports nothing. */
  method LifeCycle(spec: Spec, world: nat -> Moment, ids: nat -> string)
    returns (run: Run, created: nat, errors: seq<string>, ghost gone: seq<string>)
    requires (forall i: nat :: ids(i) != "") && (forall i: nat, j: nat | i < j :: ids(i) != ids(j))
    ensures created == CountCreated(run.trace) <= |spec.nodes| && CreatedInOrder(run.trace, ids)
    ensures multiset(gone) + multiset(errors) == multiset(FirstIds(ids, created))
    ensures DestroyedVms(run.trace) == gone && Vms(run.nodes) == []
  {
    hide CountCreated, CreatedInOrder, DestroyedVms, Vms, Ordered, AlwaysHonest, FirstIds;
    run := new Run(spec, world, ids);
    run.Execute();
    created := CountCreated(run.trace);
    VmsAreMade(run.nodes, created, run.ids);
    errors, gone := RemoveTwice(run);
    AfterNothing(gone);
  }

  lemma AfterNothing(s: seq<string>)
    ensures [] + s == s
  {
  }
}
