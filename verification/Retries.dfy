/** Waiting and retrying: polling an asynchronous session against a deadline, and the two nested retry
    loops around the creation of an object-storage repository. */
module Retries {
  import opened Topology

  // ---- waiting for a session ----

  const DEFAULT_POLL: nat := 10_000_000_000

  /** What one status request brings: an error, or the session's state and result. */
  datatype Answer = CallFails | Status(state: string, result: string)

  datatype Verdict = Completed | SessionFailed | RequestFailed | TimedOut | Cancelled

  /** The verdict an answer settles on, if it settles anything. */
  datatype Judgement = Undecided | Decided(verdict: Verdict)

  function Judge(a: Answer): Judgement {
    if a.CallFails? then Decided(RequestFailed)
    else if a.result == "Failed" then Decided(SessionFailed)
    else if a.result == "Success" || a.result == "Warning" then Decided(Completed)
    else if a.state == "Stopped" then Decided(Completed)
    else Undecided
  }

  /** A session is reported complete only on a good result, or when it stopped without a failed one. */
  lemma CompletedMeans(a: Answer)
    ensures Judge(a) == Decided(Completed) <==>
              a.Status? && (a.result in ["Success", "Warning"] || (a.state == "Stopped" && a.result != "Failed"))
  {
  }

  /** When the k-th request is answered: pauses of an interval, and the requests' own time. */
  function Clock(latency: nat -> nat, interval: nat, k: nat): nat {
    if k == 0 then latency(0) else Clock(latency, interval, k - 1) + interval + latency(k)
  }

  /** The pause between polls: ten seconds unless a positive one is given. */
  function Interval(poll: int): (i: nat)
    ensures i > 0 && (poll > 0 ==> i == poll) && (poll <= 0 ==> i == 10_000_000_000)
  {
    if poll <= 0 then DEFAULT_POLL else poll
  }

  function Budget(interval: nat, timeout: int): nat
    requires interval > 0
  {
    (if timeout < 0 then 0 else timeout) / interval + 2
  }

  /** Polls until an answer decides, the deadline has passed or the caller gives up: the first of these ends the
      wait, and nothing else does. The k-th request takes some time to answer. */
  method WaitSession(answers: nat -> Answer, latency: nat -> nat, gaveUp: nat -> bool, poll: int, timeout: int)
    returns (verdict: Verdict, polls: nat, elapsed: nat)
    ensures 1 <= polls <= Budget(Interval(poll), timeout)
    ensures elapsed == Clock(latency, Interval(poll), polls - 1)
    ensures forall k: nat | k < polls - 1 :: Judge(answers(k)).Undecided? && Clock(latency, Interval(poll), k) <= timeout && !gaveUp(k)
    ensures match Judge(answers(polls - 1))
            case Decided(v) => verdict == v
            case Undecided => if elapsed > timeout then verdict.TimedOut? else verdict.Cancelled? && gaveUp(polls - 1)
  {
    hide Judge, Clock, Budget, Interval;
    var interval := Interval(poll);
    polls, elapsed := 0, 0;
    while true
      invariant polls * interval <= elapsed <= timeout + interval || polls == 0
      invariant elapsed == if polls == 0 then 0 else Clock(latency, interval, polls - 1) + interval
      invariant forall k: nat | k < polls :: Judge(answers(k)).Undecided? && Clock(latency, interval, k) <= timeout && !gaveUp(k)
      decreases timeout + interval - elapsed
    {
      DeadlineBoundsPolls(polls, interval, timeout, elapsed);
      ClockStep(latency, interval, polls);
      var answer := answers(polls);
      elapsed := elapsed + latency(polls);
      polls := polls + 1;
      if Judge(answer).Decided? {
        return Judge(answer).verdict, polls, elapsed;
      }
      if elapsed > timeout {
        return TimedOut, polls, elapsed;
      }
      if gaveUp(polls - 1) {
        return Cancelled, polls, elapsed;
      }
      elapsed := elapsed + interval;
    }
  }

  lemma ClockStep(latency: nat -> nat, interval: nat, k: nat)
    ensures Clock(latency, interval, k) == (if k == 0 then 0 else Clock(latency, interval, k - 1) + interval) + latency(k)
  {
  }

  lemma DeadlineBoundsPolls(polls: nat, interval: nat, timeout: int, elapsed: nat)
    requires interval > 0 && (polls > 0 ==> polls * interval <= elapsed <= timeout + interval)
    ensures polls + 1 <= Budget(interval, timeout)
    ensures (polls + 1) * interval <= elapsed + interval || polls == 0
  {
    if polls > 0 {
      assert (polls - 1) * interval == polls * interval - interval;
      var q := timeout / interval;
      assert timeout < (q + 1) * interval;
      Monotone(q + 1, polls - 1, interval);
    }
  }

  lemma Monotone(a: int, b: int, c: nat)
    ensures a <= b ==> a * c <= b * c
  {
  }

  // ---- retrying object-storage calls ----

  const MAX_S3_ATTEMPTS: nat := 5
  const MAX_COMPONENT_ATTEMPTS: nat := 3

  /** The outcome of a call: no error, or one with its text. */
  datatype Outcome = Fine | Error(text: string)

  predicate Transient(o: Outcome) {
    o.Error? && (Contains(o.text, "establish connection") || Contains(o.text, "Failed to load S3 configuration") || Contains(o.text, "HTTP 500"))
  }

  predicate Updating(o: Outcome) {
    o.Error? && Contains(o.text, "pending components update")
  }

  /** The errors these tests are there for, whatever stands around them. */
  lemma KnownErrors(before: string, after: string)
    ensures Updating(Error(before + "pending components update" + after)) && Transient(Error(before + "establish connection" + after))
    ensures Transient(Error(before + "Failed to load S3 configuration" + after)) && Transient(Error(before + "HTTP 500" + after))
    ensures !Transient(Fine) && !Updating(Fine)
  {
    ContainsMiddle(before, "pending components update", after);
    ContainsMiddle(before, "establish connection", after);
    ContainsMiddle(before, "Failed to load S3 configuration", after);
    ContainsMiddle(before, "HTTP 500", after);
  }

  lemma ContainsMiddle(before: string, text: string, after: string)
    ensures Contains(before + text + after, text)
  {
    assert ContainsAt(before + text + after, text, |before|);
  }

  /** How the outside world answers: the k-th POST, and whether the caller has given up after it (and with
      which error). */
  datatype World = World(post: nat -> Outcome, gaveUp: nat -> bool, ctxErr: Outcome)

  /** What a retry loop returned and how many POSTs had been sent when it did. */
  datatype Result = Result(err: Outcome, posts: nat)

  /** Attempts number attempt and later of one retry loop, the next POST being number posts. */
  function RetryFrom(w: World, posts: nat, attempt: nat): (r: Result)
    requires 1 <= attempt <= MAX_S3_ATTEMPTS
    ensures posts < r.posts <= posts + MAX_S3_ATTEMPTS + 1 - attempt
    decreases MAX_S3_ATTEMPTS - attempt
  {
    var err := w.post(posts);
    if !Transient(err) || attempt == MAX_S3_ATTEMPTS then Result(err, posts + 1)
    else if w.gaveUp(posts) then Result(w.ctxErr, posts + 1)
    else RetryFrom(w, posts + 1, attempt + 1)
  }

  method RetryS3(w: World, posts: nat) returns (r: Result)
    ensures r == RetryFrom(w, posts, 1)
  {
    var attempt, sent := 1, posts;
    while true
      invariant 1 <= attempt <= MAX_S3_ATTEMPTS
      invariant RetryFrom(w, posts, 1) == RetryFrom(w, sent, attempt)
      decreases MAX_S3_ATTEMPTS - attempt
    {
      var err := w.post(sent);
      sent := sent + 1;
      if !Transient(err) || attempt == MAX_S3_ATTEMPTS {
        return Result(err, sent);
      }
      if w.gaveUp(sent - 1) {
        return Result(w.ctxErr, sent);
      }
      attempt := attempt + 1;
    }
  }

  /** The whole creation: what it returned, the POSTs and the component updates it cost. */
  datatype Creation = Creation(err: Outcome, posts: nat, updates: nat)

  /** From the loop head, with the error of the attempt before. */
  function ComponentsFrom(w: World, last: Result, attempt: nat): (c: Creation)
    requires 1 <= attempt <= MAX_COMPONENT_ATTEMPTS
    ensures c.posts <= last.posts + MAX_S3_ATTEMPTS * (MAX_COMPONENT_ATTEMPTS - attempt)
    ensures c.updates <= MAX_COMPONENT_ATTEMPTS - attempt
    decreases MAX_COMPONENT_ATTEMPTS - attempt
  {
    if attempt < MAX_COMPONENT_ATTEMPTS && Updating(last.err) then
      var rest := ComponentsFrom(w, RetryFrom(w, last.posts, 1), attempt + 1);
      rest.(updates := rest.updates + 1)
    else Creation(last.err, last.posts, 0)
  }

  /** Creation of the object-storage repository: the component loop around the retry loop. A failed
      update is only logged. */
  method CreateWithComponents(w: World) returns (c: Creation)
    ensures c == ComponentsFrom(w, RetryFrom(w, 0, 1), 1)
    ensures 1 <= c.posts <= 15 && c.updates <= 2
  {
    var r := RetryS3(w, 0);
    var attempt, updates := 1, 0;
    ghost var whole := ComponentsFrom(w, r, 1);
    while attempt < MAX_COMPONENT_ATTEMPTS && Updating(r.err)
      invariant 1 <= attempt <= MAX_COMPONENT_ATTEMPTS && updates == attempt - 1
      invariant 1 <= r.posts <= MAX_S3_ATTEMPTS * attempt
      invariant whole == ComponentsFrom(w, r, attempt).(updates := ComponentsFrom(w, r, attempt).updates + updates)
    {
      updates := updates + 1;
      r := RetryS3(w, r.posts);
      attempt := attempt + 1;
    }
    c := Creation(r.err, r.posts, updates);
  }

  // ---- what the loops return ----

  /** The error returned is the last POST's, unless the caller gave up after it; and every POST but the last
      failed for a reason that is retried. */
  ghost predicate LastErrorOf(w: World, from: nat, err: Outcome, posts: nat) {
    && from < posts
    && (err == w.post(posts - 1) || (err == w.ctxErr && w.gaveUp(posts - 1) && Transient(w.post(posts - 1))))
    && forall k | from <= k < posts - 1 :: Transient(w.post(k)) || Updating(w.post(k)) || (w.gaveUp(k) && Updating(w.ctxErr))
  }

  lemma {:induction false} RetryReturnsLast(w: World, posts: nat, attempt: nat)
    requires 1 <= attempt <= MAX_S3_ATTEMPTS
    ensures var r := RetryFrom(w, posts, attempt); LastErrorOf(w, posts, r.err, r.posts)
    decreases MAX_S3_ATTEMPTS - attempt
  {
    if Transient(w.post(posts)) && attempt < MAX_S3_ATTEMPTS && !w.gaveUp(posts) {
      RetryReturnsLast(w, posts + 1, attempt + 1);
    }
  }

  lemma {:induction false} ComponentsReturnLast(w: World, last: Result, attempt: nat)
    requires 1 <= attempt <= MAX_COMPONENT_ATTEMPTS && LastErrorOf(w, 0, last.err, last.posts)
    ensures var c := ComponentsFrom(w, last, attempt); LastErrorOf(w, 0, c.err, c.posts)
    decreases MAX_COMPONENT_ATTEMPTS - attempt
  {
    if attempt < MAX_COMPONENT_ATTEMPTS && Updating(last.err) {
      RetryReturnsLast(w, last.posts, 1);
      ComponentsReturnLast(w, RetryFrom(w, last.posts, 1), attempt + 1);
    }
  }

  /** A creation that is not given up returns the outcome of its last POST; it stops at the first POST that
      succeeds or fails for good. */
  lemma CreationReturnsLastError(w: World)
    requires forall k :: !w.gaveUp(k)
    ensures var c := ComponentsFrom(w, RetryFrom(w, 0, 1), 1);
      && c.posts >= 1 && c.err == w.post(c.posts - 1)
      && forall k | 0 <= k < c.posts - 1 :: Transient(w.post(k)) || Updating(w.post(k))
  {
    RetryReturnsLast(w, 0, 1);
    ComponentsReturnLast(w, RetryFrom(w, 0, 1), 1);
  }

  /** The bounds are reached: a server that keeps failing with an error that is both transient and about
      components costs all fifteen POSTs and both updates. */
  lemma BoundsAreReached(w: World)
    requires forall k :: !w.gaveUp(k) && Transient(w.post(k)) && Updating(w.post(k))
    ensures var c := ComponentsFrom(w, RetryFrom(w, 0, 1), 1); c.posts == 15 && c.updates == 2 && c.err == w.post(14)
  {
    AllAttempts(w, 0, 1);
    AllAttempts(w, 5, 1);
    AllAttempts(w, 10, 1);
    assert ComponentsFrom(w, RetryFrom(w, 10, 1), 3) == Creation(w.post(14), 15, 0);
    assert ComponentsFrom(w, RetryFrom(w, 5, 1), 2) == Creation(w.post(14), 15, 1);
  }

  lemma {:induction false} AllAttempts(w: World, posts: nat, attempt: nat)
    requires 1 <= attempt <= MAX_S3_ATTEMPTS
    requires forall k :: !w.gaveUp(k) && Transient(w.post(k))
    ensures RetryFrom(w, posts, attempt) == Result(w.post(posts + MAX_S3_ATTEMPTS - attempt), posts + MAX_S3_ATTEMPTS + 1 - attempt)
    decreases MAX_S3_ATTEMPTS - attempt
  {
    if attempt < MAX_S3_ATTEMPTS {
      AllAttempts(w, posts + 1, attempt + 1);
    }
  }

  /** A retry loop that is not given up stops with a transient error only after its last attempt. */
  lemma {:induction false} StopsOnlyThen(w: World, posts: nat, attempt: nat)
    requires 1 <= attempt <= MAX_S3_ATTEMPTS && forall k :: !w.gaveUp(k)
    ensures var r := RetryFrom(w, posts, attempt); Transient(r.err) ==> r.posts == posts + 6 - attempt
    decreases MAX_S3_ATTEMPTS - attempt
  {
    if Transient(w.post(posts)) && attempt < MAX_S3_ATTEMPTS {
      StopsOnlyThen(w, posts + 1, attempt + 1);
    }
  }

  /** So a creation that is not given up ends with a transient error only after five POSTs in a row, and with an
      error about components only after two updates. */
  lemma CreationStopsOnlyThen(w: World)
    requires forall k :: !w.gaveUp(k)
    ensures var c := ComponentsFrom(w, RetryFrom(w, 0, 1), 1);
      (Transient(c.err) ==> c.posts >= 5) && (Updating(c.err) ==> c.updates == 2)
  {
    StopsOnlyThen(w, 0, 1);
    ComponentsStop(w, RetryFrom(w, 0, 1), 1);
  }

  lemma {:induction false} ComponentsStop(w: World, last: Result, attempt: nat)
    requires 1 <= attempt <= MAX_COMPONENT_ATTEMPTS && (forall k :: !w.gaveUp(k)) && (Transient(last.err) ==> last.posts >= 5)
    ensures var c := ComponentsFrom(w, last, attempt);
      (Transient(c.err) ==> c.posts >= 5) && (Updating(c.err) ==> c.updates == MAX_COMPONENT_ATTEMPTS - attempt)
    decreases MAX_COMPONENT_ATTEMPTS - attempt
  {
    if attempt < MAX_COMPONENT_ATTEMPTS && Updating(last.err) {
      StopsOnlyThen(w, last.posts, 1);
      ComponentsStop(w, RetryFrom(w, last.posts, 1), attempt + 1);
    }
  }
}
