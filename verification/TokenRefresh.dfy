/** The client's bearer token under concurrent requests: a 401 takes the re-authentication lock, looks
    whether someone else has refreshed the token, and asks for a new one only if not. Every sequence of steps
    is an interleaving; a step that is not enabled does nothing. */
module TokenRefresh {

  type Token = string

  /** One request through the client, with the token it last sent. */
  datatype Pc =
    | Ready                              // before reading the token
    | Sent(tok: Token)
    | Rejected(tok: Token)               // 401: about to take the lock
    | Comparing(tok: Token)              // holds the lock
    | Asking(tok: Token)                 // password grant under way
    | Granted(tok: Token, renewed: Token)  // grant received, token not yet stored
    | Unlocking(tok: Token, ok: bool)
    | Retrying(tok: Token)               // about to read the token again
    | Resent(old_: Token, tok: Token)
    | Over(result: Result)

  /** What the caller gets: the response to the request that carried a token, a transport error, or the error
      of the grant that was refused. */
  datatype Result = Response(tok: Token) | NoResponse | NotRenewed

  /** One do call, what it has cost so far, whether it was answered with a 401 and whether its grant was
      refused. */
  datatype Request = Request(pc: Pc, requests: nat, grants: nat, rejected: bool, refused: bool)

  /** A completed refresh: the token that was rejected and the one that replaced it. */
  datatype Refresh = Refresh(stale: Token, renewed: Token)

  datatype State = State(
    token: Token,
    issued: set<Token>,                  // every value the client has ever been given
    lockedBy: seq<nat>,                  // at most one holder
    reqs: seq<Request>,
    log: seq<Refresh>)

  datatype Step =
    | Send(p: nat) | Accept(p: nat) | Unauthorized(p: nat) | TransportError(p: nat)
    | Lock(p: nat) | Compare(p: nat)
    | Grant(p: nat, renewed: Token) | GrantFails(p: nat) | Store(p: nat)
    | Unlock(p: nat) | Resend(p: nat) | Answer(p: nat)

  function Begin(token: Token, n: nat): State {
    State(token, {token}, [], seq(n, _ => Request(Ready, 0, 0, false, false)), [])
  }

  predicate Enabled(s: State, step: Step) {
    && step.p < |s.reqs|
    && var pc := s.reqs[step.p].pc;
       match step
       case Send(_) => pc.Ready?
       case Accept(_) => pc.Sent?
       case Unauthorized(_) => pc.Sent?
       case TransportError(_) => pc.Sent? || pc.Resent?
       case Lock(_) => pc.Rejected? && s.lockedBy == []
       case Compare(_) => pc.Comparing?
       case Grant(_, renewed) => pc.Asking? && renewed != "" && renewed !in s.issued
       case GrantFails(_) => pc.Asking?
       case Store(_) => pc.Granted?
       case Unlock(_) => pc.Unlocking? && s.lockedBy != []
       case Resend(_) => pc.Retrying?
       case Answer(_) => pc.Resent?
  }

  function Goto(s: State, p: nat, pc: Pc): State
    requires p < |s.reqs|
  {
    s.(reqs := s.reqs[p := s.reqs[p].(pc := pc)])
  }

  function Spend(s: State, p: nat, requests: nat, grants: nat): State
    requires p < |s.reqs|
  {
    var r := s.reqs[p];
    s.(reqs := s.reqs[p := r.(requests := r.requests + requests, grants := r.grants + grants)])
  }

  function Mark(s: State, p: nat, rejected: bool, refused: bool): State
    requires p < |s.reqs|
  {
    var r := s.reqs[p];
    s.(reqs := s.reqs[p := r.(rejected := r.rejected || rejected, refused := r.refused || refused)])
  }

  function Next(s: State, step: Step): State {
    if !Enabled(s, step) then s else
      var p, pc := step.p, s.reqs[step.p].pc;
      match step
      case Send(_) => Spend(Goto(s, p, Sent(s.token)), p, 1, 0)
      case Accept(_) => Goto(s, p, Over(Response(pc.tok)))
      case Unauthorized(_) => Mark(Goto(s, p, Rejected(pc.tok)), p, true, false)
      case TransportError(_) => Goto(s, p, Over(NoResponse))
      case Lock(_) => Goto(s, p, Comparing(pc.tok)).(lockedBy := [p])
      case Compare(_) => if s.token != pc.tok then Goto(s, p, Unlocking(pc.tok, true)) else Spend(Goto(s, p, Asking(pc.tok)), p, 0, 1)
      case Grant(_, renewed) => Goto(s, p, Granted(pc.tok, renewed)).(issued := s.issued + {renewed})
      case GrantFails(_) => Mark(Goto(s, p, Unlocking(pc.tok, false)), p, false, true)
      case Store(_) => Goto(s, p, Unlocking(pc.tok, true)).(token := pc.renewed, log := s.log + [Refresh(pc.tok, pc.renewed)])
      case Unlock(_) => Goto(s, p, if pc.ok then Retrying(pc.tok) else Over(NotRenewed)).(lockedBy := [])
      case Resend(_) => Spend(Goto(s, p, Resent(pc.tok, s.token)), p, 1, 0)
      case Answer(_) => Goto(s, p, Over(Response(pc.tok)))
  }

  function Run(s: State, steps: seq<Step>): State
    decreases |steps|
  {
    if steps == [] then s else Run(Next(s, steps[0]), steps[1..])
  }

  // ---- the invariant ----

  predicate Inside(pc: Pc) { pc.Comparing? || pc.Asking? || pc.Granted? || pc.Unlocking? }

  /** The token values a request remembers were all issued, and none is a grant still to be stored. */
  predicate Remembers(pc: Pc, t: Token) {
    match pc
    case Ready => false
    case Over(_) => false
    case Resent(o, tok) => o == t || tok == t
    case _ => pc.tok == t
  }

  ghost predicate RequestInv(s: State, p: nat)
    requires p < |s.reqs|
  {
    var r := s.reqs[p];
    && (forall t | Remembers(r.pc, t) :: t in s.issued)
    && (Inside(r.pc) <==> s.lockedBy == [p])
    && match r.pc
       case Ready => r.requests == 0 && r.grants == 0 && !r.rejected && !r.refused
       case Sent(_) => r.requests == 1 && r.grants == 0 && !r.rejected && !r.refused
       case Rejected(_) => r.requests == 1 && r.grants == 0 && r.rejected && !r.refused
       case Comparing(_) => r.requests == 1 && r.grants == 0 && r.rejected && !r.refused
       case Asking(tok) => r.requests == 1 && r.grants == 1 && s.token == tok && r.rejected && !r.refused
       case Granted(tok, renewed) =>
         && r.requests == 1 && r.grants == 1 && s.token == tok && renewed != tok && renewed in s.issued && r.rejected && !r.refused
         && (forall k | 0 <= k < |s.log| :: s.log[k].stale != renewed && s.log[k].renewed != renewed)
         && (forall q | 0 <= q < |s.reqs| :: !Remembers(s.reqs[q].pc, renewed))
       case Unlocking(tok, ok) => r.requests == 1 && r.grants <= 1 && (ok ==> s.token != tok) && r.rejected && (r.refused <==> !ok)
       case Retrying(tok) => r.requests == 1 && r.grants <= 1 && s.token != tok && r.rejected && !r.refused
       case Resent(o, tok) => r.requests == 2 && r.grants <= 1 && tok != o && r.rejected && !r.refused
       case Over(result) =>
         && r.grants <= 1 && (r.refused ==> r.rejected) && (result.NotRenewed? <==> r.refused)
         && r.requests == (if r.rejected && !r.refused then 2 else 1)
  }

  ghost predicate LogInv(s: State) {
    && s.token in s.issued
    && (forall k | 0 <= k < |s.log| ::
          s.log[k].stale in s.issued && s.log[k].renewed in s.issued && s.log[k].stale != s.log[k].renewed && s.log[k].stale != s.token)
    && (forall j, k | 0 <= j < k < |s.log| :: s.log[j].stale != s.log[k].stale && s.log[j].renewed != s.log[k].renewed)
  }

  ghost predicate Inv(s: State) {
    && |s.lockedBy| <= 1 && (s.lockedBy != [] ==> s.lockedBy[0] < |s.reqs|)
    && (forall p | 0 <= p < |s.reqs| :: RequestInv(s, p))
    && LogInv(s)
  }

  lemma BeginHasInv(token: Token, n: nat)
    ensures Inv(Begin(token, n))
  {
  }

  lemma NextKeepsInv(s: State, step: Step)
    requires Inv(s)
    ensures Inv(Next(s, step))
  {
    if Enabled(s, step) {
      var t, p := Next(s, step), step.p;
      assert RequestInv(s, p);
      NextKeepsLog(s, step);
      NextKeepsOwn(s, step);
      forall q | 0 <= q < |t.reqs| && q != p ensures RequestInv(t, q) {
        NextKeepsOthers(s, step, q);
      }
    }
  }

  lemma NextKeepsLog(s: State, step: Step)
    requires Inv(s) && Enabled(s, step)
    ensures LogInv(Next(s, step))
  {
    assert RequestInv(s, step.p);
  }

  lemma NextKeepsOwn(s: State, step: Step)
    requires Inv(s) && Enabled(s, step)
    ensures RequestInv(Next(s, step), step.p)
  {
    var t, p := Next(s, step), step.p;
    assert RequestInv(s, p);
    if step.Grant? {
      forall q | 0 <= q < |t.reqs| ensures !Remembers(t.reqs[q].pc, step.renewed) {
        assert RequestInv(s, q);
      }
    }
  }

  lemma NextKeepsOthers(s: State, step: Step, q: nat)
    requires Inv(s) && Enabled(s, step) && q < |s.reqs| && q != step.p
    ensures RequestInv(Next(s, step), q)
  {
    assert RequestInv(s, q) && RequestInv(s, step.p);
    var t := Next(s, step);
    assert t.reqs[q] == s.reqs[q];
  }

  lemma {:induction false} RunKeepsInv(s: State, steps: seq<Step>)
    requires Inv(s)
    ensures Inv(Run(s, steps))
    decreases |steps|
  {
    if steps != [] {
      NextKeepsInv(s, steps[0]);
      RunKeepsInv(Next(s, steps[0]), steps[1..]);
    }
  }

  // ---- the results ----

  /** Over every interleaving of any number of requests, each token value causes at most one refresh. */
  lemma OneRefreshPerToken(token: Token, n: nat, steps: seq<Step>, j: nat, k: nat)
    requires var log := Run(Begin(token, n), steps).log; j < k < |log|
    ensures var log := Run(Begin(token, n), steps).log; log[j].stale != log[k].stale && log[j].renewed != log[k].renewed
  {
    BeginHasInv(token, n);
    RunKeepsInv(Begin(token, n), steps);
  }

  /** A retry never carries the token that was rejected. */
  lemma RetryCarriesAnotherToken(token: Token, n: nat, steps: seq<Step>, p: nat)
    requires var s := Run(Begin(token, n), steps); p < |s.reqs| && s.reqs[p].pc.Resent?
    ensures var pc := Run(Begin(token, n), steps).reqs[p].pc; pc.tok != pc.old_
  {
    BeginHasInv(token, n);
    RunKeepsInv(Begin(token, n), steps);
    assert RequestInv(Run(Begin(token, n), steps), p);
  }

  /** One do call costs at most two requests and one password grant. */
  lemma RequestIsBounded(token: Token, n: nat, steps: seq<Step>, p: nat)
    requires p < |Run(Begin(token, n), steps).reqs|
    ensures var r := Run(Begin(token, n), steps).reqs[p]; r.requests <= 2 && r.grants <= 1
  {
    BeginHasInv(token, n);
    RunKeepsInv(Begin(token, n), steps);
    assert RequestInv(Run(Begin(token, n), steps), p);
  }

  /** At most one request is between taking and releasing the re-authentication lock. */
  lemma RefreshIsExclusive(token: Token, n: nat, steps: seq<Step>, p: nat, q: nat)
    requires var s := Run(Begin(token, n), steps); p < |s.reqs| && q < |s.reqs| && Inside(s.reqs[p].pc) && Inside(s.reqs[q].pc)
    ensures p == q
  {
    BeginHasInv(token, n);
    var s := Run(Begin(token, n), steps);
    RunKeepsInv(Begin(token, n), steps);
    assert RequestInv(s, p) && RequestInv(s, q);
  }

  // ---- what a rejected request comes to ----

  /** A request that is over was sent a second time exactly if it was answered with a 401 and its grant was not
      refused; only a refused grant makes it end without a renewed token. So where no grant is refused, every
      401 leads to a second request. */
  lemma RejectedIsRetried(token: Token, n: nat, steps: seq<Step>, p: nat)
    requires var s := Run(Begin(token, n), steps); p < |s.reqs| && s.reqs[p].pc.Over?
    ensures var r := Run(Begin(token, n), steps).reqs[p];
      && (r.requests == 2 <==> r.rejected && !r.refused)
      && (r.requests == 1 <==> !r.rejected || r.refused)
      && (r.pc.result.NotRenewed? <==> r.refused)
  {
    BeginHasInv(token, n);
    RunKeepsInv(Begin(token, n), steps);
    assert RequestInv(Run(Begin(token, n), steps), p);
  }

  predicate NothingRefused(steps: seq<Step>) { forall k | 0 <= k < |steps| :: !steps[k].GrantFails? }

  lemma {:induction false} NoneRefused(s: State, steps: seq<Step>)
    requires NothingRefused(steps) && forall q | 0 <= q < |s.reqs| :: !s.reqs[q].refused
    ensures |Run(s, steps).reqs| == |s.reqs| && forall q | 0 <= q < |s.reqs| :: !Run(s, steps).reqs[q].refused
    decreases |steps|
  {
    if steps != [] {
      NoneRefused(Next(s, steps[0]), steps[1..]);
    }
  }

  /** Over every interleaving in which no grant is refused, a request answered with a 401 is over only after a
      second request, and never for want of a token. */
  lemma NeverGivesUp(token: Token, n: nat, steps: seq<Step>, p: nat)
    requires NothingRefused(steps) && p < n
    ensures var s := Run(Begin(token, n), steps);
      |s.reqs| == n && (s.reqs[p].pc.Over? ==> !s.reqs[p].pc.result.NotRenewed? && (s.reqs[p].rejected <==> s.reqs[p].requests == 2))
  {
    NoneRefused(Begin(token, n), steps);
    if Run(Begin(token, n), steps).reqs[p].pc.Over? {
      RejectedIsRetried(token, n, steps, p);
    }
  }

  /** Undisturbed, a request rejected with the client's current token asks for one grant, and is sent again with
      exactly the token granted, which the client keeps. */
  lemma UndisturbedRefresh(s: State, p: nat, renewed: Token)
    requires p < |s.reqs| && s.lockedBy == [] && s.reqs[p].pc == Rejected(s.token) && renewed != "" && renewed !in s.issued
    ensures var r := s.reqs[p];
      Run(s, [Lock(p), Compare(p), Grant(p, renewed), Store(p), Unlock(p), Resend(p)])
      == s.(token := renewed, issued := s.issued + {renewed}, log := s.log + [Refresh(s.token, renewed)],
            reqs := s.reqs[p := r.(pc := Resent(s.token, renewed), requests := r.requests + 1, grants := r.grants + 1)])
  {
    hide Run;
    var s3 := AsksForOne(s, p, renewed);
    var s4 := Next(s3, Store(p));
    var s5 := Next(s4, Unlock(p));
    var s6 := Next(s5, Resend(p));
    assert s5.token == renewed && s5.lockedBy == [] && s5.reqs[p].pc == Retrying(s.token);
    assert s6.reqs == s.reqs[p := s6.reqs[p]];
    RunFrom(s3, Store(p), [Unlock(p)] + ([Resend(p)] + []));
    RunFrom(s4, Unlock(p), [Resend(p)] + []);
    RunFrom(s5, Resend(p), []);
    RunFrom(s6, Resend(p), []);
    assert [Store(p), Unlock(p), Resend(p)] == [Store(p)] + ([Unlock(p)] + ([Resend(p)] + []));
    assert s6 == s.(token := renewed, issued := s.issued + {renewed}, log := s.log + [Refresh(s.token, renewed)], reqs := s6.reqs);
  }

  /** The first half: the lock, the comparison, and the grant. */
  lemma AsksForOne(s: State, p: nat, renewed: Token) returns (t: State)
    requires p < |s.reqs| && s.lockedBy == [] && s.reqs[p].pc == Rejected(s.token) && renewed != "" && renewed !in s.issued
    ensures var r := s.reqs[p];
      t == s.(issued := s.issued + {renewed}, lockedBy := [p],
              reqs := s.reqs[p := r.(pc := Granted(s.token, renewed), grants := r.grants + 1)])
    ensures Run(s, [Lock(p), Compare(p), Grant(p, renewed), Store(p), Unlock(p), Resend(p)]) == Run(t, [Store(p), Unlock(p), Resend(p)])
  {
    hide Run;
    var rest := [Store(p), Unlock(p), Resend(p)];
    var s1 := Next(s, Lock(p));
    var s2 := Next(s1, Compare(p));
    t := Next(s2, Grant(p, renewed));
    assert t.reqs == s.reqs[p := t.reqs[p]];
    RunFrom(s, Lock(p), [Compare(p), Grant(p, renewed)] + rest);
    RunFrom(s1, Compare(p), [Grant(p, renewed)] + rest);
    RunFrom(s2, Grant(p, renewed), rest);
    assert [Lock(p), Compare(p), Grant(p, renewed), Store(p), Unlock(p), Resend(p)] == [Lock(p)] + ([Compare(p), Grant(p, renewed)] + rest);
    assert [Compare(p), Grant(p, renewed)] + rest == [Compare(p)] + ([Grant(p, renewed)] + rest);
  }

  /** A request rejected with a token that somebody has replaced meanwhile asks for none, and is sent again with
      the replacement. */
  lemma ReplacedMeanwhile(s: State, p: nat)
    requires p < |s.reqs| && s.lockedBy == [] && s.reqs[p].pc.Rejected? && s.reqs[p].pc.tok != s.token
    ensures var r := s.reqs[p];
      Run(s, [Lock(p), Compare(p), Unlock(p), Resend(p)])
      == s.(reqs := s.reqs[p := r.(pc := Resent(r.pc.tok, s.token), requests := r.requests + 1)])
  {
    var s1 := Next(s, Lock(p));
    var s2 := Next(s1, Compare(p));
    var s3 := Next(s2, Unlock(p));
    RunFrom(s, Lock(p), [Compare(p), Unlock(p), Resend(p)]);
    RunFrom(s1, Compare(p), [Unlock(p), Resend(p)]);
    RunFrom(s2, Unlock(p), [Resend(p)]);
    RunFrom(s3, Resend(p), []);
  }

  lemma RunFrom(s: State, step: Step, rest: seq<Step>)
    ensures Run(s, [step] + rest) == Run(Next(s, step), rest)
    ensures Run(s, []) == s
  {
    assert ([step] + rest)[1..] == rest;
  }

  // ---- every call ends ----

  /** How many more steps a request can take, at most. */
  function Rank(pc: Pc): nat {
    match pc
    case Ready => 9
    case Sent(_) => 8
    case Rejected(_) => 7
    case Comparing(_) => 6
    case Asking(_) => 5
    case Granted(_, _) => 4
    case Unlocking(_, _) => 3
    case Retrying(_) => 2
    case Resent(_, _) => 1
    case Over(_) => 0
  }

  lemma StepLowersRank(s: State, step: Step)
    requires Enabled(s, step)
    ensures Rank(Next(s, step).reqs[step.p].pc) < Rank(s.reqs[step.p].pc)
    ensures forall q | 0 <= q < |s.reqs| && q != step.p :: Next(s, step).reqs[q] == s.reqs[q]
  {
  }

  /** While some request is not over, some request can take a step: the lock is held only by one that can go on,
      and a grant can always bring a new token. */
  lemma SomeoneCanMove(token: Token, n: nat, steps: seq<Step>) returns (step: Step)
    requires exists p: nat :: p < |Run(Begin(token, n), steps).reqs| && !Run(Begin(token, n), steps).reqs[p].pc.Over?
    ensures Enabled(Run(Begin(token, n), steps), step) && !step.GrantFails? && !step.TransportError?
  {
    var s := Run(Begin(token, n), steps);
    BeginHasInv(token, n);
    RunKeepsInv(Begin(token, n), steps);
    var p: nat :| p < |s.reqs| && !s.reqs[p].pc.Over?;
    if s.reqs[p].pc.Rejected? && s.lockedBy != [] {
      p := s.lockedBy[0];
      assert s.lockedBy == [p];
    }
    assert RequestInv(s, p);
    match s.reqs[p].pc
    case Ready => step := Send(p);
    case Sent(_) => step := Accept(p);
    case Rejected(_) => step := Lock(p);
    case Comparing(_) => step := Compare(p);
    case Asking(_) =>
      var renewed := FreshToken(s.issued);
      step := Grant(p, renewed);
    case Granted(_, _) => step := Store(p);
    case Unlocking(_, _) => step := Unlock(p);
    case Retrying(_) => step := Resend(p);
    case Resent(_, _) => step := Answer(p);
  }

  lemma {:induction false} FreshToken(issued: set<Token>) returns (t: Token)
    ensures t != "" && t !in issued
  {
    var n := LongestToken(issued);
    t := seq(n + 1, _ => 't');
    assert |t| == n + 1;
  }

  lemma {:induction false} LongestToken(issued: set<Token>) returns (n: nat)
    ensures forall t | t in issued :: |t| <= n
  {
    if issued == {} {
      return 0;
    }
    var t :| t in issued;
    var m := LongestToken(issued - {t});
    n := if |t| > m then |t| else m;
    assert forall x | x in issued :: x == t || x in issued - {t};
  }
}
