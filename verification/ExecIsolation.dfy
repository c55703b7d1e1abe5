/** The query contexts of one `Exec`, as shared state.
 *
 * Each attempt runs its upstream call in a goroutine of its own, on a private copy of the
 * caller's query context, and hears of the end of that call over a one-slot channel made
 * for this attempt. When the select has moved on, the goroutine is still there: it may set
 * responses in its copy and fill its slot during a later attempt, or after `Exec` returned.
 */
module ExecIsolation {
  import opened Options
  import opened Sequences
  import opened CircuitExec

  /** A private context with the channel that belongs to it. `result` is what the upstream
      call returned, once it has. */
  datatype Cell = Cell(response: Option<Msg>, result: Option<Option<Error>>)

  datatype Phase = Running | Returned(settled: Settlement)

  /** The caller's response, the private cells of the attempts launched so far, and the
      judgements of those that are over. */
  datatype Sys = Sys(caller: Option<Msg>, cells: seq<Cell>, judged: seq<Judgement>, phase: Phase)

  datatype Setup = Setup(failing: set<int>, budget: nat)

  datatype Event =
    | Launch                                // Exec copies the context and starts a goroutine
    | Respond(j: nat, msg: Option<Msg>)     // goroutine j sets the response of its context
    | Finish(j: nat, err: Option<Error>)    // goroutine j sends its result and ends
    | Select(winner: Winner, ended: bool)   // Exec's select; has the context ended just after?

  predicate Waiting(s: Sys) {
    s.phase.Running? && |s.cells| == |s.judged| + 1
  }

  predicate Enabled(u: Setup, s: Sys, e: Event) {
    match e
    case Launch => s.phase.Running? && |s.cells| == |s.judged| < u.budget
    case Respond(j, _) => j < |s.cells| && s.cells[j].result.None?
    case Finish(j, _) => j < |s.cells| && s.cells[j].result.None?
    case Select(winner, ended) =>
      && Waiting(s)
      && (winner.Completion? ==> s.cells[|s.judged|].result.Some?)
      && (winner.Cancellation? ==> ended)
  }

  /** What the select of the current attempt yields. */
  function Outcome(c: Cell, winner: Winner): (Option<Msg>, Option<Error>) {
    match winner
    case Completion => (c.response, if c.result.Some? then c.result.value else None)
    case Timer => (None, Some(AttemptTimeout))
    case Cancellation => (None, Some(ContextCause))
  }

  /** The loop body of `Exec` after the select. */
  function Judged(u: Setup, s: Sys, j: Judgement): Sys {
    var s1 := s.(judged := s.judged + [j]);
    match j
    case Answer(m) => s1.(caller := Some(m), phase := Returned(Succeeded))
    case BadRcode(c) => s1.(caller := None, phase := Returned(Failed(UpstreamRcode(c))))
    case GivenUp => s1.(caller := None, phase := Returned(Abandoned))
    case Lost(e) =>
      if |s1.judged| < u.budget then s1 else s1.(caller := None, phase := Returned(Failed(e)))
  }

  function Step(u: Setup, s: Sys, e: Event): Sys
    requires Enabled(u, s, e)
  {
    match e
    case Launch => s.(cells := s.cells + [Cell(s.caller, None)])
    case Respond(j, msg) => s.(cells := s.cells[j := s.cells[j].(response := msg)])
    case Finish(j, err) => s.(cells := s.cells[j := s.cells[j].(result := Some(err))])
    case Select(winner, ended) =>
      var (response, err) := Outcome(s.cells[|s.judged|], winner);
      Judged(u, s, Verdict(response, err, ended, u.failing))
  }

  predicate ValidRun(u: Setup, start: Sys, es: seq<Event>)
    decreases |es|, 0
  {
    es == [] || (ValidRun(u, start, Front(es)) && Enabled(u, After(u, start, Front(es)), Last(es)))
  }

  function After(u: Setup, start: Sys, es: seq<Event>): Sys
    requires ValidRun(u, start, es)
    decreases |es|, 1
  {
    if es == [] then start else Step(u, After(u, start, Front(es)), Last(es))
  }

  /** `Exec` entered with the given response in the caller's context. */
  function Entered(caller: Option<Msg>): Sys {
    Sys(caller, [], [], Running)
  }

  // ---------- what every interleaving keeps ----------

  /** While running, the caller's response is the one it came with and every attempt over was
      lost; once returned, the judgements decide settlement and response as promised. */
  predicate Faithful(u: Setup, caller: Option<Msg>, s: Sys) {
    && |s.judged| <= |s.cells| <= |s.judged| + 1
    && |s.cells| <= u.budget
    && match s.phase
       case Running =>
         && s.caller == caller && |s.judged| < u.budget
         && forall i :: 0 <= i < |s.judged| ==> s.judged[i].Lost?
       case Returned(settled) => |s.judged| == |s.cells| && Decides(s.judged, u.budget, settled, s.caller)
  }

  lemma FaithfulStep(u: Setup, caller: Option<Msg>, s: Sys, e: Event)
    requires Faithful(u, caller, s) && Enabled(u, s, e)
    ensures Faithful(u, caller, Step(u, s, e))
  {
  }

  /** In every interleaving of `Exec` with its goroutines: until it returns, the caller's
      context is untouched; when it returns, and for ever after, response and settlement are
      those its attempts decided. */
  lemma {:induction false} CallerIsolated(u: Setup, caller: Option<Msg>, es: seq<Event>)
    requires u.budget >= 1 && ValidRun(u, Entered(caller), es)
    ensures Faithful(u, caller, After(u, Entered(caller), es))
    decreases |es|
  {
    if es == [] {
    } else {
      CallerIsolated(u, caller, Front(es));
      FaithfulStep(u, caller, After(u, Entered(caller), Front(es)), Last(es));
    }
  }

  /** What a goroutine does stays in its own cell, and a launch leaves the caller's context and the
      other cells alone. */
  lemma GoroutinesPrivate(u: Setup, s: Sys, e: Event)
    requires Enabled(u, s, e) && !e.Select?
    ensures var s1 := Step(u, s, e);
            && s1.caller == s.caller && s1.judged == s.judged && s1.phase == s.phase
            && (forall i :: 0 <= i < |s.cells| && (e.Launch? || i != e.j) ==> s1.cells[i] == s.cells[i])
            && (e.Launch? ==> s1.cells == s.cells + [Cell(s.caller, None)])
            && (e.Respond? ==> s1.cells[e.j] == Cell(e.msg, None))
            && (e.Finish? ==> s1.cells[e.j] == Cell(s.cells[e.j].response, Some(e.err)))
  {
  }

  /** The call of the current attempt ended first, without an error, and left this response. */
  predicate Replied(s: Sys, winner: Winner, m: Msg)
    requires Waiting(s)
  {
    winner.Completion? && s.cells[|s.judged|] == Cell(Some(m), Some(None))
  }

  /** What the select decides, in terms of the current cell: a reply is the answer, or with a
      failing rcode a failure; without a reply the query ends when the context has, goes on to
      another attempt while there is one, and fails otherwise. */
  lemma SelectDecides(u: Setup, s: Sys, winner: Winner, ended: bool)
    requires Enabled(u, s, Select(winner, ended))
    ensures var s1 := Step(u, s, Select(winner, ended));
            var silent := forall m :: !Replied(s, winner, m);
            && s1.cells == s.cells && |s1.judged| == |s.judged| + 1
            && (forall m :: Replied(s, winner, m) && m.rcode !in u.failing ==>
                  s1.phase == Returned(Succeeded) && s1.caller == Some(m))
            && (forall m :: Replied(s, winner, m) && m.rcode in u.failing ==>
                  s1.phase == Returned(Failed(UpstreamRcode(m.rcode))) && s1.caller == None)
            && (silent && ended ==> s1.phase == Returned(Abandoned) && s1.caller == None)
            && (silent && !ended && |s1.judged| < u.budget ==> s1.phase.Running? && s1.caller == s.caller)
            && (silent && !ended && |s1.judged| >= u.budget ==>
                  s1.phase.Returned? && s1.phase.settled.Failed? && s1.caller == None)
  {
    var cell := s.cells[|s.judged|];
    if winner.Completion? && cell.result == Some(None) && cell.response.Some? {
      assert Replied(s, winner, cell.response.value);
    }
  }

  // ---------- late completions ----------

  /** An action of a goroutine whose attempt is over. */
  predicate Late(s: Sys, e: Event) {
    (e.Respond? || e.Finish?) && e.j < |s.judged|
  }

  /** The same run with all late actions left out. */
  function WithoutLate(u: Setup, start: Sys, es: seq<Event>): seq<Event>
    requires ValidRun(u, start, es)
  {
    if es == [] then []
    else
      var before := WithoutLate(u, start, Front(es));
      if Late(After(u, start, Front(es)), Last(es)) then before else before + [Last(es)]
  }

  /** Two states that differ at most in the private cells of attempts that are over. */
  predicate SameToCaller(s: Sys, t: Sys) {
    && s.caller == t.caller && s.judged == t.judged && s.phase == t.phase
    && |s.cells| == |t.cells|
    && forall i :: |s.judged| <= i < |s.cells| ==> s.cells[i] == t.cells[i]
  }

  lemma LateIsInvisible(u: Setup, s: Sys, e: Event)
    requires Enabled(u, s, e) && Late(s, e)
    ensures SameToCaller(Step(u, s, e), s)
  {
  }

  lemma SameStep(u: Setup, s: Sys, t: Sys, e: Event)
    requires SameToCaller(s, t) && Enabled(u, s, e) && !Late(s, e)
    ensures Enabled(u, t, e) && SameToCaller(Step(u, s, e), Step(u, t, e))
  {
  }

  /** Isolation: leave out of any run everything goroutines do after their attempt timed out
      or was cancelled - during later attempts or after the return - and what remains is a run
      with the same response, the same judgements of all attempts and the same settlement. */
  lemma {:induction false} LateCompletionsIgnored(u: Setup, start: Sys, es: seq<Event>)
    requires ValidRun(u, start, es)
    ensures var kept := WithoutLate(u, start, es);
            ValidRun(u, start, kept) && SameToCaller(After(u, start, es), After(u, start, kept))
    decreases |es|
  {
    if es == [] {
    } else {
      LateCompletionsIgnored(u, start, Front(es));
      var s, e, before := After(u, start, Front(es)), Last(es), WithoutLate(u, start, Front(es));
      if Late(s, e) {
        LateIsInvisible(u, s, e);
      } else {
        SameStep(u, s, After(u, start, before), e);
        assert Front(before + [e]) == before;
      }
    }
  }

  /** Such late actions do occur: after any run whose last attempt timed out with the upstream
      call unfinished, a response may still be set and the call may still finish. */
  lemma LateActionsPossible(u: Setup, s: Sys, msg: Option<Msg>, err: Option<Error>)
    requires Waiting(s) && s.cells[|s.judged|].result.None?
    ensures Enabled(u, s, Select(Timer, false))
    ensures var s1 := Step(u, s, Select(Timer, false));
            var j := |s.judged|;
            && Enabled(u, s1, Respond(j, msg)) && Late(s1, Respond(j, msg))
            && Enabled(u, s1, Finish(j, err)) && Late(s1, Finish(j, err))
  {
  }
}
