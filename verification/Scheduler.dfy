/**
 * The accept loop: one thread per session, the futures in a vector, a polling clean-up from 80
 * entries on and a blocking one at 160. Here the loop is a transition system, in which sessions
 * finish at any moment between two steps of the server; module Server has the real loops.
 */
module Scheduler {
  import opened Wrappers

  const CLEANUP_THRESHOLD := 80
  const MAXIMUM_SESSIONS := 160

  /** How a session's thread ended, which is what `future::get()` does. */
  datatype Outcome = Returned | Threw

  /** The waiting time of a clean-up: zero for the polling one, a second for the blocking one. */
  datatype Wait = Poll | Block

  /** Where the server thread is; a clean-up knows how many futures were taken before it. */
  datatype Phase =
    | AtShutdown
    | AtThreshold
    | Cleaning(wait: Wait, before: nat, todo: seq<nat>, running: seq<nat>)
    | AtMaximum
    | AtAccept
    | Leaving(cause: Cause)
    | Exited(cause: Cause)

  /** Why the server stops: it was asked to, `get()` rethrew, or `accept` or `async` threw. */
  datatype Cause = Stopped | SessionThrew | ServerFailed {
    /** What `RunImpl` returns. */
    function Code(): nat {
      if Stopped? then 0 else 1
    }
  }

  /** Sessions are numbered in the order of their `accept`; `reaped` are those `get()` took. */
  datatype State = State(
    accepted: nat,
    sessions: seq<nat>,
    finished: map<nat, Outcome>,
    reaped: seq<nat>,
    phase: Phase)

  datatype Action =
    | Finish(done: map<nat, Outcome>) // some sessions finish
    | Shutdown(answer: bool)          // the server asks whether to stop
    | Step                            // the next test, or the next future of a clean-up
    | Accept(open: bool)              // the acceptor returns a socket
    | Fail                            // the acceptor throws, or no thread can be started
    | Exit                            // the futures still held are destroyed, which joins them

  const INITIAL := State(0, [], map[], [], AtShutdown)

  /** The sessions whose futures the server holds, in the order in which it holds them. */
  function Tracked(s: State): seq<nat> {
    match s.phase
    case Cleaning(_, _, todo, running) => running + todo
    case _ => s.sessions
  }

  predicate Enabled(s: State, a: Action) {
    match a
    case Finish(done) => forall k :: k in done ==> k < s.accepted && k !in s.finished
    case Shutdown(_) => s.phase.AtShutdown?
    case Step => s.phase.AtThreshold? || s.phase.AtMaximum? || s.phase.Cleaning?
    case Accept(_) => s.phase.AtAccept?
    case Fail => s.phase.AtAccept?
    case Exit => s.phase.Leaving? && forall k :: k in s.sessions ==> k in s.finished
  }

  function StartCleaning(s: State, wait: Wait): State {
    s.(sessions := [], phase := Cleaning(wait, |s.reaped|, s.sessions, []))
  }

  /** One future of a clean-up: kept if its session still runs, else taken. */
  function PollOne(s: State): State
    requires s.phase.Cleaning? && s.phase.todo != []
  {
    var Cleaning(wait, before, todo, running) := s.phase;
    var k := todo[0];
    if k !in s.finished then
      s.(phase := Cleaning(wait, before, todo[1..], running + [k]))
    else if s.finished[k].Returned? then
      s.(reaped := s.reaped + [k], phase := Cleaning(wait, before, todo[1..], running))
    else
      s.(sessions := running + todo[1..], reaped := s.reaped + [k], phase := Leaving(SessionThrew))
  }

  function NextStep(s: State): State {
    match s.phase
    case AtThreshold =>
      if |s.sessions| >= CLEANUP_THRESHOLD then StartCleaning(s, Poll) else s.(phase := AtMaximum)
    case AtMaximum =>
      if |s.sessions| >= MAXIMUM_SESSIONS then StartCleaning(s, Block) else s.(phase := AtAccept)
    case Cleaning(_, _, todo, running) =>
      if todo == [] then s.(sessions := running, phase := AtMaximum) else PollOne(s)
    case _ => s
  }

  function Apply(s: State, a: Action): State
    requires Enabled(s, a)
  {
    match a
    case Finish(done) => s.(finished := s.finished + done)
    case Shutdown(answer) => s.(phase := if answer then Leaving(Stopped) else AtThreshold)
    case Step => NextStep(s)
    case Accept(open) =>
      if open then s.(accepted := s.accepted + 1, sessions := s.sessions + [s.accepted], phase := AtShutdown)
      else s.(phase := Leaving(Stopped))
    case Fail => s.(phase := Leaving(ServerFailed))
    case Exit => s.(phase := Exited(s.phase.cause))
  }

  /** The state after a run, if each of its actions could happen. */
  function Run(actions: seq<Action>): Option<State> {
    if actions == [] then Some(INITIAL)
    else
      var n := |actions| - 1;
      match Run(actions[..n])
      case Some(s) => if Enabled(s, actions[n]) then Some(Apply(s, actions[n])) else None
      case None => None
  }

  lemma RunOfNothing()
    ensures Run([]) == Some(INITIAL)
  {
  }

  lemma RunOneMore(actions: seq<Action>, a: Action)
    requires Run(actions).Some? && Enabled(Run(actions).value, a)
    ensures Run(actions + [a]) == Some(Apply(Run(actions).value, a))
  {
    assert (actions + [a])[..|actions|] == actions;
  }

  // ----- What holds in every reachable state -----

  predicate Increasing(ks: seq<nat>) {
    forall i, j :: 0 <= i < j < |ks| ==> ks[i] < ks[j]
  }

  predicate Distinct(ks: seq<nat>) {
    forall i, j :: 0 <= i < j < |ks| ==> ks[i] != ks[j]
  }

  /** Every accepted session is held, in accept order, or was taken once; never both. */
  predicate Conserved(s: State) {
    && Increasing(Tracked(s))
    && Distinct(s.reaped)
    && (forall k :: k in Tracked(s) ==> k < s.accepted && k !in s.reaped)
    && (forall k :: k in s.reaped ==> k < s.accepted)
    && (forall k: nat :: k < s.accepted ==> k in Tracked(s) || k in s.reaped)
    && |Tracked(s)| + |s.reaped| == s.accepted
  }

  predicate StopsFor(s: State, cause: Cause) {
    (s.phase.Leaving? || s.phase.Exited?) && s.phase.cause == cause
  }

  /** Only finished sessions are taken, and the first one that threw ends the run. */
  predicate ReapedFinished(s: State) {
    && (forall k :: k in s.finished ==> k < s.accepted)
    && (forall k :: k in s.reaped ==> k in s.finished)
    && (StopsFor(s, SessionThrew) ==>
          s.reaped != [] && s.finished[s.reaped[|s.reaped| - 1]] == Threw)
    && (forall i :: 0 <= i < |s.reaped| - (if StopsFor(s, SessionThrew) then 1 else 0) ==>
          s.finished[s.reaped[i]] == Returned)
  }

  /**
   * At most 160 sessions are held, fewer when another one is accepted; a blocking clean-up
   * starts with exactly 160; after the exit no session is left running.
   */
  predicate Bounded(s: State) {
    && |Tracked(s)| <= MAXIMUM_SESSIONS
    && (s.phase.AtAccept? ==> |s.sessions| < MAXIMUM_SESSIONS)
    && (s.phase.Cleaning? ==> s.sessions == [] && s.phase.before <= |s.reaped|)
    && (s.phase.Cleaning? ==> s.accepted - s.phase.before <= MAXIMUM_SESSIONS)
    && (s.phase.Cleaning? && s.phase.wait.Block? ==> s.accepted - s.phase.before == MAXIMUM_SESSIONS)
    && (s.phase.Exited? ==> forall k: nat :: k < s.accepted ==> k in s.finished)
  }

  lemma WithoutOne(all: seq<nat>, n: nat)
    requires n < |all| && Increasing(all)
    ensures var left := all[..n] + all[n + 1..];
            && Increasing(left)
            && (forall x :: x in left <==> x in all && x != all[n])
  {
    var left := all[..n] + all[n + 1..];
    assert forall i :: 0 <= i < |left| ==> left[i] == if i < n then all[i] else all[i + 1];
    forall x | x in all && x != all[n] ensures x in left {
      var i :| 0 <= i < |all| && all[i] == x;
      assert if i < n then left[i] == x else left[i - 1] == x;
    }
  }

  /** Taking one of the held sessions. */
  lemma TakeOne(s: State, t: State, n: nat)
    requires Conserved(s) && n < |Tracked(s)|
    requires t.accepted == s.accepted && t.reaped == s.reaped + [Tracked(s)[n]]
    requires Tracked(t) == Tracked(s)[..n] + Tracked(s)[n + 1..]
    ensures Conserved(t)
  {
    hide Tracked;
    WithoutOne(Tracked(s), n);
    assert Tracked(s)[n] in Tracked(s);
    assert forall i :: 0 <= i < |s.reaped| ==> s.reaped[i] in s.reaped;
  }

  lemma PollKeepsConserved(s: State)
    requires Conserved(s) && s.phase.Cleaning? && s.phase.todo != []
    ensures Conserved(PollOne(s))
  {
    var Cleaning(_, _, todo, running) := s.phase;
    var k, n := todo[0], |running|;
    assert Tracked(s)[n] == k;
    if k in s.finished {
      assert running + todo[1..] == Tracked(s)[..n] + Tracked(s)[n + 1..];
      TakeOne(s, PollOne(s), n);
    } else {
      assert (running + [k]) + todo[1..] == Tracked(s);
    }
  }

  lemma StepKeepsConserved(s: State)
    requires Conserved(s) && Enabled(s, Step)
    ensures Conserved(NextStep(s))
  {
    if s.phase.Cleaning? && s.phase.todo != [] {
      PollKeepsConserved(s);
    } else {
      assert Tracked(NextStep(s)) == Tracked(s);
    }
  }

  lemma ActionKeepsConserved(s: State, a: Action)
    requires Conserved(s) && Enabled(s, a)
    ensures Conserved(Apply(s, a))
  {
    if a.Step? {
      StepKeepsConserved(s);
    } else if a.Accept? {
      var ks := Tracked(s);
      assert forall i :: 0 <= i < |ks| ==> ks[i] in ks;
      assert forall k :: k in ks + [s.accepted] <==> k in ks || k == s.accepted;
    }
  }

  lemma ActionKeepsReapedFinished(s: State, a: Action)
    requires ReapedFinished(s) && Enabled(s, a)
    ensures ReapedFinished(Apply(s, a))
  {
  }

  lemma ActionKeepsBounded(s: State, a: Action)
    requires Conserved(s) && ReapedFinished(s) && Bounded(s) && Enabled(s, a)
    ensures Bounded(Apply(s, a))
  {
  }

  /** The three invariants hold after every run. */
  lemma {:induction false} EveryRun(actions: seq<Action>)
    requires Run(actions).Some?
    ensures Conserved(Run(actions).value) && ReapedFinished(Run(actions).value) && Bounded(Run(actions).value)
  {
    if actions != [] {
      var n := |actions| - 1;
      EveryRun(actions[..n]);
      var s := Run(actions[..n]).value;
      ActionKeepsConserved(s, actions[n]);
      ActionKeepsReapedFinished(s, actions[n]);
      ActionKeepsBounded(s, actions[n]);
    }
  }

  /** The server stops for a failure of its own exactly if there was one. */
  lemma {:induction false} FailuresAreLogged(actions: seq<Action>)
    requires Run(actions).Some?
    ensures StopsFor(Run(actions).value, ServerFailed) <==> Fail in actions
  {
    if actions != [] {
      var n := |actions| - 1;
      FailuresAreLogged(actions[..n]);
      assert actions == actions[..n] + [actions[n]];
    }
  }

  // ----- The blocking clean-up -----

  /**
   * At the end of a blocking clean-up: the server goes on to accept exactly if the clean-up took
   * a future, and blocks again otherwise. It is below the clean-up threshold, as the source
   * comment has it, exactly if the clean-up took more than 80.
   */
  lemma BlockingCleanupOutcome(actions: seq<Action>)
    requires Run(actions).Some?
    requires var p := Run(actions).value.phase; p.Cleaning? && p.wait.Block? && p.todo == []
    ensures Run(actions + [Step, Step]).Some?
    ensures var s, t := Run(actions).value, Run(actions + [Step, Step]).value;
            var taken := |s.reaped| - s.phase.before;
            && (t.phase.AtAccept? <==> taken > 0)
            && (t.phase.Cleaning? && t.phase.wait.Block? <==> taken == 0)
            && |Tracked(t)| == MAXIMUM_SESSIONS - taken
            && (t.phase.AtAccept? && |t.sessions| < CLEANUP_THRESHOLD <==> taken > 80)
  {
    EveryRun(actions);
    RunOneMore(actions, Step);
    RunOneMore(actions + [Step], Step);
    assert actions + [Step] + [Step] == actions + [Step, Step];
    var s := Run(actions).value;
    assert s.phase.running + s.phase.todo == s.phase.running;
  }

  /** Some actions that leave the server in the clean-up it is in. */
  function Continue(s: State, actions: seq<Action>): Option<State>
    decreases |actions|
  {
    if actions == [] then Some(s)
    else if s.phase.Cleaning? && Enabled(s, actions[0]) && Apply(s, actions[0]).phase.Cleaning? then
      Continue(Apply(s, actions[0]), actions[1..])
    else None
  }

  /**
   * A session that is still to be polled and has returned is taken before the clean-up ends, so
   * a blocking clean-up that sees one finished session is the last one. A clean-up ends after at
   * most as many steps as there are futures to poll.
   */
  lemma {:induction false} FinishedIsTaken(s: State, actions: seq<Action>, k: nat)
    requires s.phase.Cleaning? && s.phase.before <= |s.reaped|
    requires k in s.finished && s.finished[k] == Returned
    requires k in s.phase.todo || (k in s.reaped && s.phase.before < |s.reaped|)
    requires Continue(s, actions).Some?
    ensures var t := Continue(s, actions).value;
            && t.phase.Cleaning? && t.phase.before == s.phase.before && t.accepted == s.accepted
            && (k in t.phase.todo || (k in t.reaped && t.phase.before < |t.reaped|))
            && Steps(actions) == |s.phase.todo| - |t.phase.todo|
    decreases |actions|
  {
    if actions != [] {
      var t := Apply(s, actions[0]);
      if actions[0].Step? {
        assert s.phase.todo == [s.phase.todo[0]] + s.phase.todo[1..];
      }
      FinishedIsTaken(t, actions[1..], k);
    }
  }

  function Steps(actions: seq<Action>): nat {
    if actions == [] then 0 else (if actions[0].Step? then 1 else 0) + Steps(actions[1..])
  }

  lemma {:induction false} ContinueIsRun(history: seq<Action>, actions: seq<Action>)
    requires Run(history).Some? && Continue(Run(history).value, actions).Some?
    ensures Run(history + actions) == Continue(Run(history).value, actions)
    decreases |actions|
  {
    if actions == [] {
      assert history + actions == history;
    } else {
      RunOneMore(history, actions[0]);
      ContinueIsRun(history + [actions[0]], actions[1..]);
      assert history + [actions[0]] + actions[1..] == history + actions;
    }
  }

  /** A server that blocks accepts again after any clean-up that polls a finished session. */
  lemma BlockedServerResumes(history: seq<Action>, actions: seq<Action>, k: nat)
    requires Run(history).Some?
    requires var s := Run(history).value;
             && s.phase.Cleaning? && s.phase.wait.Block?
             && k in s.phase.todo && k in s.finished && s.finished[k] == Returned
             && Continue(s, actions).Some? && Continue(s, actions).value.phase.Cleaning?
             && Continue(s, actions).value.phase.wait.Block?
             && Continue(s, actions).value.phase.todo == []
    ensures Run(history + actions + [Step, Step]).Some?
    ensures Run(history + actions + [Step, Step]).value.phase.AtAccept?
  {
    EveryRun(history);
    FinishedIsTaken(Run(history).value, actions, k);
    ContinueIsRun(history, actions);
    BlockingCleanupOutcome(history + actions);
  }

  // ----- What happens between the shutdown question and the accept -----

  /** Nothing is accepted any more once the server was told to stop or failed. */
  lemma {:induction false} NoAcceptAfterStop(history: seq<Action>, last: Action, rest: seq<Action>)
    requires Run(history + [last] + rest).Some?
    requires last == Shutdown(true) || last == Accept(false) || last == Fail
    ensures Run(history + [last]).Some? && forall a :: a in rest ==> a.Finish? || a.Exit?
    ensures var s := Run(history + [last] + rest).value;
            && s.accepted == Run(history + [last]).value.accepted
            && (s.phase.Leaving? || s.phase.Exited?)
            && s.phase.cause == (if last == Fail then ServerFailed else Stopped)
    decreases |rest|
  {
    if rest == [] {
      assert history + [last] + rest == history + [last];
      assert (history + [last])[..|history|] == history;
    } else {
      var n := |rest| - 1;
      assert (history + [last] + rest)[..|history + [last]| + n] == history + [last] + rest[..n];
      NoAcceptAfterStop(history, last, rest[..n]);
      assert rest == rest[..n] + [rest[n]];
    }
  }

  /** Session `k` was taken, or is going to be before anything else is accepted. */
  predicate IsBeingTaken(s: State, k: nat) {
    && k in s.finished
    && (k in s.reaped ||
        match s.phase
        case AtThreshold => k in s.sessions && |s.sessions| >= CLEANUP_THRESHOLD
        case Cleaning(_, _, todo, _) => k in todo
        case Leaving(cause) => cause == SessionThrew
        case Exited(cause) => cause == SessionThrew
        case _ => false)
  }

  lemma ActionKeepsBeingTaken(s: State, a: Action, k: nat)
    requires IsBeingTaken(s, k) && Enabled(s, a)
    ensures IsBeingTaken(Apply(s, a), k)
  {
    if s.phase.Cleaning? && s.phase.todo != [] {
      assert s.phase.todo == [s.phase.todo[0]] + s.phase.todo[1..];
    }
  }

  /**
   * With 80 sessions or more, the server takes every session that has finished before it accepts
   * again; if it does not, it leaves because a session threw.
   */
  lemma {:induction false} FinishedAreTakenFirst(history: seq<Action>, actions: seq<Action>, k: nat)
    requires Run(history).Some? && Run(history + actions).Some?
    requires var s := Run(history).value;
             && s.phase.AtThreshold? && |s.sessions| >= 80
             && k in s.sessions && k in s.finished
    ensures var t := Run(history + actions).value;
            && IsBeingTaken(t, k)
            && (t.phase.AtAccept? || t.phase.AtShutdown? || t.phase.AtMaximum? ==> k in t.reaped)
            && ((t.phase.Leaving? || t.phase.Exited?) && k !in t.reaped ==> t.phase.cause == SessionThrew)
    decreases |actions|
  {
    if actions == [] {
      assert history + actions == history;
    } else {
      var n := |actions| - 1;
      assert (history + actions)[..|history| + n] == history + actions[..n];
      FinishedAreTakenFirst(history, actions[..n], k);
      ActionKeepsBeingTaken(Run(history + actions[..n]).value, actions[n], k);
    }
  }

  /** With fewer than 80 sessions, two tests lead to the accept and nothing is taken. */
  lemma {:induction false} NoCleanupBelowThreshold(history: seq<Action>, actions: seq<Action>)
    requires Run(history).Some? && Run(history + actions).Some?
    requires Run(history).value.phase.AtThreshold? && |Run(history).value.sessions| < 80
    requires forall a :: a in actions ==> a.Step? || a.Finish?
    ensures var s, t := Run(history).value, Run(history + actions).value;
            && t.sessions == s.sessions && t.reaped == s.reaped
            && t.phase == (if Count(actions) == 0 then AtThreshold
                           else if Count(actions) == 1 then AtMaximum else AtAccept)
    decreases |actions|
  {
    if actions == [] {
      assert history + actions == history;
    } else {
      var n := |actions| - 1;
      assert (history + actions)[..|history| + n] == history + actions[..n];
      NoCleanupBelowThreshold(history, actions[..n]);
    }
  }

  /** The number of steps, counted from the end. */
  function Count(actions: seq<Action>): nat {
    if actions == [] then 0
    else Count(actions[..|actions| - 1]) + if actions[|actions| - 1].Step? then 1 else 0
  }

  // ----- How long a finished session can leave the server blocked -----

  /** The server thread is between the shutdown question and the accept. */
  predicate IsMakingRoom(s: State) {
    s.phase.AtThreshold? || s.phase.AtMaximum? || s.phase.Cleaning?
  }

  /** Session `k` has finished and is held, or room was already made. */
  predicate CanMakeRoom(s: State, k: nat) {
    && k in s.finished
    && match s.phase
       case AtThreshold => k in s.sessions
       case AtMaximum => k in s.sessions || |s.sessions| < MAXIMUM_SESSIONS
       case Cleaning(_, before, todo, running) => k in running + todo || |s.reaped| > before
       case _ => true
  }

  /** How many steps the server needs at most: two clean-ups, if the first one polled too early. */
  function StepsLeft(s: State, k: nat): nat {
    match s.phase
    case AtThreshold =>
      if |s.sessions| >= CLEANUP_THRESHOLD then |s.sessions| + 2 + MAXIMUM_SESSIONS + 3 else 2
    case AtMaximum => if |s.sessions| < MAXIMUM_SESSIONS then 1 else MAXIMUM_SESSIONS + 3
    case Cleaning(_, before, todo, _) =>
      |todo| + 1 + if |s.reaped| > before || k in todo then 1 else MAXIMUM_SESSIONS + 3
    case _ => 0
  }

  lemma StepMakesRoom(s: State, k: nat)
    requires Conserved(s) && Bounded(s) && IsMakingRoom(s) && CanMakeRoom(s, k)
    ensures var t := NextStep(s);
            || t.phase.AtAccept? || t.phase.Leaving?
            || (IsMakingRoom(t) && CanMakeRoom(t, k) && StepsLeft(t, k) < StepsLeft(s, k))
  {
    if s.phase.Cleaning? && s.phase.todo != [] {
      var Cleaning(_, _, todo, running) := s.phase;
      assert todo == [todo[0]] + todo[1..];
    }
  }

  lemma FinishKeepsRoom(s: State, done: map<nat, Outcome>, k: nat)
    requires IsMakingRoom(s) && CanMakeRoom(s, k) && Enabled(s, Finish(done))
    ensures var t := Apply(s, Finish(done));
            IsMakingRoom(t) && CanMakeRoom(t, k) && StepsLeft(t, k) == StepsLeft(s, k)
  {
  }

  lemma {:induction false} RunOfPrefix(actions: seq<Action>, n: nat)
    requires Run(actions).Some? && n <= |actions|
    ensures Run(actions[..n]).Some?
  {
    if n < |actions| {
      RunOfPrefix(actions[..|actions| - 1], n);
      assert actions[..|actions| - 1][..n] == actions[..n];
    } else {
      assert actions[..n] == actions;
    }
  }

  /**
   * One finished session unblocks the server: whatever finishes meanwhile, within the given
   * number of steps the server accepts again, or stops because a session threw.
   */
  lemma {:induction false} FinishedSessionUnblocks(history: seq<Action>, actions: seq<Action>, k: nat)
    returns (n: nat)
    requires Run(history).Some? && Run(history + actions).Some?
    requires IsMakingRoom(Run(history).value) && CanMakeRoom(Run(history).value, k)
    requires Steps(actions) >= StepsLeft(Run(history).value, k)
    ensures n <= |actions| && Run(history + actions[..n]).Some?
    ensures var t := Run(history + actions[..n]).value; t.phase.AtAccept? || t.phase.Leaving?
    decreases |actions|
  {
    var s := Run(history).value;
    var a, rest := actions[0], actions[1..];
    EveryRun(history);
    RunOfPrefix(history + actions, |history| + 1);
    assert (history + actions)[..|history| + 1] == history + [a];
    assert (history + [a])[..|history|] == history;
    var t := Run(history + [a]).value;
    if a.Step? {
      StepMakesRoom(s, k);
    } else {
      FinishKeepsRoom(s, a.done, k);
    }
    if t.phase.AtAccept? || t.phase.Leaving? {
      n := 1;
      assert actions[..1] == [a];
    } else {
      hide Run;
      assert history + [a] + rest == history + actions;
      var more := FinishedSessionUnblocks(history + [a], rest, k);
      n := more + 1;
      assert history + [a] + rest[..more] == history + actions[..n];
    }
  }

  // ----- The bounds are reached -----

  function Ids(n: nat): (r: seq<nat>)
    ensures |r| == n && forall i :: 0 <= i < n ==> r[i] == i
  {
    seq(n, i => i)
  }

  /** A clean-up that finds nothing finished keeps everything. */
  lemma {:induction false} PollQuietly(history: seq<Action>) returns (actions: seq<Action>)
    requires Run(history).Some? && Run(history).value.phase.Cleaning?
    requires var s := Run(history).value; forall k :: k in s.phase.todo ==> k !in s.finished
    ensures forall a :: a in actions ==> a == Step
    ensures var s := Run(history).value;
            var Cleaning(wait, before, todo, running) := s.phase;
            Run(history + actions) == Some(s.(phase := Cleaning(wait, before, [], running + todo)))
    decreases |Run(history).value.phase.todo|
  {
    hide Run;
    var s := Run(history).value;
    var Cleaning(wait, before, todo, running) := s.phase;
    if todo == [] {
      actions := [];
      assert history + [] == history && running + todo == running;
    } else {
      RunOneMore(history, Step);
      var rest := PollQuietly(history + [Step]);
      actions := [Step] + rest;
      assert history + actions == history + [Step] + rest;
      assert running + [todo[0]] + todo[1..] == running + todo;
    }
  }

  /** Any number of sessions up to 160 can be held at once. */
  lemma {:induction false} FillTo(n: nat) returns (actions: seq<Action>)
    requires n <= MAXIMUM_SESSIONS
    ensures Run(actions) == Some(State(n, Ids(n), map[], [], AtShutdown))
  {
    hide Run;
    if n == 0 {
      actions := [];
      RunOfNothing();
      assert Ids(0) == [];
    } else {
      actions := FillTo(n - 1);
      actions := ToMaximumCheck(actions);
      RunOneMore(actions, Step);
      RunOneMore(actions + [Step], Accept(true));
      actions := actions + [Step] + [Accept(true)];
      assert Ids(n - 1) + [n - 1] == Ids(n);
    }
  }

  /** From the shutdown question to the test against 160, with nothing finished. */
  lemma ToMaximumCheck(history: seq<Action>) returns (actions: seq<Action>)
    requires Run(history).Some? && Run(history).value.phase.AtShutdown?
    requires Run(history).value.finished == map[]
    ensures Run(actions) == Some(Run(history).value.(phase := AtMaximum))
  {
    hide Run;
    var s := Run(history).value;
    RunOneMore(history, Shutdown(false));
    RunOneMore(history + [Shutdown(false)], Step);
    actions := history + [Shutdown(false)] + [Step];
    if |s.sessions| >= CLEANUP_THRESHOLD {
      var polls := PollQuietly(actions);
      actions := actions + polls;
      assert [] + s.sessions == s.sessions;
      RunOneMore(actions, Step);
      actions := actions + [Step];
    }
  }

  lemma BlockAtMaximum() returns (blocked: seq<Action>)
    ensures Run(blocked) == Some(State(160, [], map[], [], Cleaning(Block, 0, Ids(160), [])))
  {
    hide Run;
    var full := FillTo(160);
    blocked := ToMaximumCheck(full);
    RunOneMore(blocked, Step);
    blocked := blocked + [Step];
  }

  lemma ResumeAfterOne(blocked: seq<Action>) returns (resumed: seq<Action>)
    requires Run(blocked) == Some(State(160, [], map[], [], Cleaning(Block, 0, Ids(160), [])))
    ensures forall a :: a in resumed ==> !a.Accept?
    ensures Run(blocked + resumed) ==
            Some(State(160, [], map[0 := Returned], [0], Cleaning(Block, 0, [], Ids(160)[1..])))
  {
    hide Run;
    var first := Finish(map[0 := Returned]);
    RunOneMore(blocked, first);
    assert map[] + map[0 := Returned] == map[0 := Returned];
    RunOneMore(blocked + [first], Step);
    assert [] + [0] == [0];
    var rest := PollQuietly(blocked + [first] + [Step]);
    resumed := [first] + [Step] + rest;
    assert blocked + resumed == blocked + [first] + [Step] + rest;
    assert [] + Ids(160)[1..] == Ids(160)[1..];
  }

  /**
   * The comment at lines 108-109 is not what the code does: here is a run that blocks, and then
   * accepts the next session while it holds 159.
   */
  lemma BlocksOnlyBelowMaximum() returns (blocked: seq<Action>, resumed: seq<Action>)
    ensures Run(blocked).Some? && Run(blocked).value.phase.Cleaning? && Run(blocked).value.phase.wait.Block?
    ensures forall a :: a in resumed ==> !a.Accept?
    ensures Run(blocked + resumed).Some?
    ensures Run(blocked + resumed).value.phase.AtAccept?
    ensures |Run(blocked + resumed).value.sessions| == 159
  {
    hide Run;
    blocked := BlockAtMaximum();
    var some := ResumeAfterOne(blocked);
    RunOneMore(blocked + some, Step);
    RunOneMore(blocked + some + [Step], Step);
    resumed := some + [Step] + [Step];
    assert blocked + resumed == blocked + some + [Step] + [Step];
  }
}
