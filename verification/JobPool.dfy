/** The job workers: one goroutine per job behind a semaphore, with a stop signal. Each method is one atomic
    section of one worker or of the manager; any order of calls is an interleaving. */
module JobPool {

  datatype State = Pending | Running | Finished | Failed | Canceled

  /** Where a job's worker stands. */
  datatype Pc = Queued | Slotted | Started | Working | Ended | Closing | Leaving | Gone

  /** The job's record in the store. */
  datatype Record = Absent | Saved(state: State)

  /** A job: its visible state, its worker's position, how often its done channel was closed and its stored
      record. */
  datatype Job = Job(state: State, pc: Pc, closes: nat, stored: Record)

  predicate Terminal(s: State) { s.Finished? || s.Failed? || s.Canceled? }

  /** The worker is between taking and giving back a slot. */
  predicate HoldsSlot(j: Job) { !j.pc.Queued? && !j.pc.Gone? }

  /** A record in the store lags behind by one save at most, except that a job canceled while it was queued is
      never saved again. Only a terminal job's record can have been deleted. */
  predicate JobOk(j: Job) {
    match j.pc
    case Queued => j.state.Pending? && j.stored == Saved(Pending) && j.closes == 0
    case Slotted => j.state.Pending? && j.stored == Saved(Pending) && j.closes == 0
    case Started => j.state.Running? && j.stored == Saved(Pending) && j.closes == 0
    case Working => j.state.Running? && j.stored == Saved(Running) && j.closes == 0
    case Ended => (j.state.Finished? || j.state.Failed?) && (j.stored == Saved(Running) || j.stored.Absent?) && j.closes == 0
    case Closing => (j.state.Finished? || j.state.Failed?) && (j.stored == Saved(j.state) || j.stored.Absent?) && j.closes == 0
    case Leaving => (j.state.Finished? || j.state.Failed?) && (j.stored == Saved(j.state) || j.stored.Absent?) && j.closes == 1
    case Gone =>
      Terminal(j.state) && (j.stored == Saved(if j.state.Canceled? then Pending else j.state) || j.stored.Absent?) && j.closes == 1
  }

  // ---- one job's sections ----

  /** The sections of a job's worker, and the deletion of its record. */
  datatype Section = TakeSlot | GiveUp | Begin | Save | Conclude(failed: bool) | CloseDone | GiveBack | Remove

  predicate CanRun(j: Job, s: Section) {
    match s
    case TakeSlot => j.pc.Queued?
    case GiveUp => j.pc.Queued?
    case Begin => j.pc.Slotted?
    case Save => j.pc.Started? || j.pc.Ended?
    case Conclude(_) => j.pc.Working?
    case CloseDone => j.pc.Closing?
    case GiveBack => j.pc.Leaving?
    case Remove => Terminal(j.state)
  }

  function After(j: Job, s: Section): Job
    requires CanRun(j, s)
  {
    match s
    case TakeSlot => j.(pc := Slotted)
    case GiveUp => j.(state := Canceled, pc := Gone, closes := j.closes + 1)
    case Begin => j.(state := Running, pc := Started)
    case Save => j.(pc := if j.pc.Started? then Working else Closing, stored := Saved(j.state))
    case Conclude(failed) => j.(state := if failed then Failed else Finished, pc := Ended)
    case CloseDone => j.(pc := Leaving, closes := j.closes + 1)
    case GiveBack => j.(pc := Gone)
    case Remove => j.(stored := Absent)
  }

  /** The sections in the order they come; one that cannot run is passed over. */
  function RunJob(j: Job, sections: seq<Section>): Job
    decreases |sections|
  {
    if sections == [] then j
    else RunJob(if CanRun(j, sections[0]) then After(j, sections[0]) else j, sections[1..])
  }

  lemma {:induction false} SavedForGood(j: Job, sections: seq<Section>)
    requires JobOk(j) && j.stored.Absent? && !j.pc.Ended?
    ensures RunJob(j, sections).stored.Absent?
    decreases |sections|
  {
    if sections != [] {
      SavedForGood(if CanRun(j, sections[0]) then After(j, sections[0]) else j, sections[1..]);
    }
  }

  /** A deleted record stays deleted, whatever comes, exactly when the worker is past its last save: a job is
      terminal, and may be deleted or pruned, before that save, which then brings the record back. */
  lemma DeletedStaysExactly(j: Job)
    requires JobOk(j) && j.stored.Absent?
    ensures (forall sections :: RunJob(j, sections).stored.Absent?) <==> !j.pc.Ended?
  {
    if j.pc.Ended? {
      assert [Save][1..] == [];
      assert RunJob(After(j, Save), []) == After(j, Save);
      assert !RunJob(j, [Save]).stored.Absent?;
    } else {
      forall sections ensures RunJob(j, sections).stored.Absent? {
        SavedForGood(j, sections);
      }
    }
  }

  ghost function Holders(jobs: map<string, Job>): set<string> {
    set id | id in jobs && HoldsSlot(jobs[id])
  }

  ghost function RunningJobs(jobs: map<string, Job>): set<string> {
    set id | id in jobs && jobs[id].state.Running?
  }

  /** Changing one job changes the holders by that job at most. */
  lemma HoldersChange(jobs: map<string, Job>, id: string, j: Job)
    requires id in jobs
    ensures Holders(jobs[id := j]) == if HoldsSlot(j) then Holders(jobs) + {id} else Holders(jobs) - {id}
    ensures HoldsSlot(jobs[id]) == HoldsSlot(j) ==> Holders(jobs[id := j]) == Holders(jobs)
  {
  }

  class Manager {
    const max: nat
    var jobs: map<string, Job>           // every job ever submitted
    var listed: set<string>              // those still in the registry
    var slots: nat                       // taken slots of the semaphore
    var stopping: bool

    ghost predicate Valid()
      reads this
    {
      && max > 0 && slots <= max
      && listed <= jobs.Keys
      && (forall id | id in jobs :: JobOk(jobs[id]))
      && slots == |Holders(jobs)|
      && (forall id | id in jobs && !Terminal(jobs[id].state) :: id in listed)
    }

    /** A limit below one becomes one. */
    constructor (maxConcurrent: int)
      ensures Valid() && max == (if maxConcurrent <= 0 then 1 else maxConcurrent) && jobs == map[] && !stopping
    {
      max := if maxConcurrent <= 0 then 1 else maxConcurrent;
      jobs, listed, slots, stopping := map[], {}, 0, false;
      new;
      assert Holders(jobs) == {};
    }

    method Submit(id: string)
      requires Valid() && id !in jobs
      modifies `jobs, `listed
      ensures Valid() && jobs == old(jobs)[id := Job(Pending, Queued, 0, Saved(Pending))] && id in listed
    {
      assert Holders(jobs[id := Job(Pending, Queued, 0, Saved(Pending))]) == Holders(jobs);
      jobs := jobs[id := Job(Pending, Queued, 0, Saved(Pending))];
      listed := listed + {id};
    }

    method Shutdown()
      requires Valid()
      modifies `stopping
      ensures Valid() && stopping
    {
      stopping := true;
    }

    /** Takes a slot if one is free. */
    method Acquire(id: string)
      requires Valid() && id in jobs && jobs[id].pc.Queued? && slots < max
      modifies `jobs, `slots
      ensures Valid() && slots == old(slots) + 1 && jobs == old(jobs)[id := After(old(jobs)[id], TakeSlot)]
    {
      HoldersChange(jobs, id, After(jobs[id], TakeSlot));
      jobs := jobs[id := After(jobs[id], TakeSlot)];
      slots := slots + 1;
    }

    /** A queued worker that sees the stop signal first: the job is canceled and done, but its record is not
        saved again. */
    method StopQueued(id: string)
      requires Valid() && id in jobs && jobs[id].pc.Queued? && stopping
      modifies `jobs
      ensures Valid() && jobs == old(jobs)[id := After(old(jobs)[id], GiveUp)]
    {
      var j := After(jobs[id], GiveUp);
      HoldersChange(jobs, id, j);
      jobs := jobs[id := j];
    }

    /** Marks the job running. */
    method Begin(id: string)
      requires Valid() && id in jobs && jobs[id].pc.Slotted?
      modifies `jobs
      ensures Valid() && jobs == old(jobs)[id := After(old(jobs)[id], Section.Begin)]
    {
      Move(id, After(jobs[id], Section.Begin));
    }

    /** Saves the record: after the job was marked running, and again after it ended. */
    method Save(id: string)
      requires Valid() && id in jobs && (jobs[id].pc.Started? || jobs[id].pc.Ended?)
      modifies `jobs
      ensures Valid() && jobs == old(jobs)[id := After(old(jobs)[id], Section.Save)]
    {
      Move(id, After(jobs[id], Section.Save));
    }

    /** The script ended: an error or a non-zero exit fails the job. */
    method Conclude(id: string, error: bool, exit: int)
      requires Valid() && id in jobs && jobs[id].pc.Working?
      modifies `jobs
      ensures Valid() && jobs == old(jobs)[id := After(old(jobs)[id], Section.Conclude(error || exit != 0))]
    {
      Move(id, After(jobs[id], Section.Conclude(error || exit != 0)));
    }

    /** A worker that keeps its slot moves on. */
    method Move(id: string, j: Job)
      requires Valid() && id in jobs && JobOk(j) && HoldsSlot(j) && HoldsSlot(jobs[id])
      requires Terminal(jobs[id].state) ==> Terminal(j.state)
      modifies `jobs
      ensures Valid() && jobs == old(jobs)[id := j]
    {
      HoldersChange(jobs, id, j);
      jobs := jobs[id := j];
    }

    /** Closes the job's done channel. */
    method CloseDone(id: string)
      requires Valid() && id in jobs && jobs[id].pc.Closing?
      modifies `jobs
      ensures Valid() && jobs == old(jobs)[id := After(old(jobs)[id], Section.CloseDone)]
    {
      Move(id, After(jobs[id], Section.CloseDone));
    }

    /** Gives the slot back, last of all. */
    method Release(id: string)
      requires Valid() && id in jobs && jobs[id].pc.Leaving?
      modifies `jobs, `slots
      ensures Valid() && slots == old(slots) - 1 && jobs == old(jobs)[id := After(old(jobs)[id], GiveBack)]
    {
      assert id in Holders(jobs);
      HoldersChange(jobs, id, After(jobs[id], GiveBack));
      jobs := jobs[id := After(jobs[id], GiveBack)];
      slots := slots - 1;
    }

    /** Takes a finished job off the registry and its record off the store, as a prune does too; pending and
        running ones stay. A store that refuses keeps the record. */
    method Delete(id: string, refused: bool) returns (ok: bool)
      requires Valid()
      modifies `listed, `jobs
      ensures Valid() && (ok <==> id in old(listed) && Terminal(old(jobs)[id].state))
      ensures listed == if ok then old(listed) - {id} else old(listed)
      ensures jobs == if ok && !refused then old(jobs)[id := After(old(jobs)[id], Remove)] else old(jobs)
    {
      if id !in listed || !Terminal(jobs[id].state) { return false; }
      listed := listed - {id};
      if !refused {
        Forget(id);
      }
      ok := true;
    }

    /** The store drops a terminal job's record. */
    method Forget(id: string)
      requires Valid() && id in jobs && Terminal(jobs[id].state)
      modifies `jobs
      ensures Valid() && jobs == old(jobs)[id := After(old(jobs)[id], Remove)]
    {
      HoldersChange(jobs, id, After(jobs[id], Remove));
      jobs := jobs[id := After(jobs[id], Remove)];
    }

    /** The shortest run that brings a deleted record back: the job ends, is deleted, and is saved. */
    method DeleteBeforeSave(id: string) returns (gone: bool)
      requires Valid() && id in jobs && jobs[id].pc.Ended? && id in listed
      modifies `listed, `jobs
      ensures Valid() && gone && id !in listed && id in jobs && jobs[id].stored == Saved(old(jobs)[id].state)
    {
      var ok := Delete(id, false);
      gone := jobs[id].stored.Absent?;
      Save(id);
    }

    // ---- what holds in every state ----

    /** At most as many jobs run as there are slots, and each of them holds one. */
    lemma RunningHoldSlots()
      requires Valid()
      ensures RunningJobs(jobs) <= Holders(jobs) && |RunningJobs(jobs)| <= max
    {
      SubsetSize(RunningJobs(jobs), Holders(jobs));
    }

    /** A done channel is closed at most once, and only on a job in a terminal state that is not running and
        will change no more. */
    lemma DoneOnce(id: string)
      requires Valid() && id in jobs
      ensures jobs[id].closes <= 1 && (jobs[id].closes == 1 ==> Terminal(jobs[id].state))
    {
    }

    /** No state is stuck: while some worker has not left, some section can run. */
    lemma SomeoneCanMove() returns (id: string)
      requires Valid() && exists i :: i in jobs && !jobs[i].pc.Gone?
      ensures id in jobs && !jobs[id].pc.Gone? && (jobs[id].pc.Queued? ==> slots < max)
    {
      id :| id in jobs && !jobs[id].pc.Gone?;
      if jobs[id].pc.Queued? && slots >= max {
        assert Holders(jobs) != {};
        id :| id in Holders(jobs);
      }
    }

    /** Once a worker is gone its record, unless deleted, says how the job ended, except that a shutdown
        canceled it: then the record still says pending. */
    lemma StoredStates(id: string)
      requires Valid() && id in jobs && jobs[id].pc.Gone? && jobs[id].stored.Saved?
      ensures jobs[id].stored.state == jobs[id].state <==> !jobs[id].state.Canceled?
      ensures jobs[id].state.Canceled? ==> jobs[id].stored.state.Pending?
    {
    }
  }

  lemma {:induction false} SubsetSize<T>(a: set<T>, b: set<T>)
    requires a <= b
    ensures |a| <= |b|
  {
    if a != {} {
      var x :| x in a;
      SubsetSize(a - {x}, b - {x});
    }
  }
}
