/**
 * The accept loop as it is written: the vector of futures, the clean-up that moves it through
 * a loop, and the nested loops around `accept`. The ghost log shows that every execution is a
 * run of module Scheduler, whose theorems therefore hold of it.
 */
module Server {
  import opened Wrappers
  import opened Scheduler

  /** What becomes of a connection: a session, the end of the loop, or an exception. */
  datatype Accepted = Open | Closed | Failed

  /** What the outside world does before the server's next observation, and what it answers. */
  datatype Turn = Turn(finishing: map<nat, Outcome>, stop: bool, accepted: Accepted)

  /** How lines 114-119 end: with room for a session, by a rethrow, or not yet. */
  datatype Room = Room | Rethrown | Blocked

  class AcceptLoop {
    var sessions: seq<nat>            // the vector of futures
    var accepted: nat                 // how many sessions were started
    var finished: map<nat, Outcome>   // the shared states that are ready
    var reaped: seq<nat>              // the futures on which `get()` was called
    var world: seq<Turn>              // what is still going to be observed
    ghost var log: seq<Action>

    /** The log leads to the fields' values, with the server thread at `phase`. */
    ghost predicate At(phase: Phase)
      reads this
    {
      Run(log) == Some(State(accepted, sessions, finished, reaped, phase))
    }

    constructor (world: seq<Turn>)
      ensures At(AtShutdown) && this.world == world
    {
      this.world := world;
      sessions, accepted, finished, reaped, log := [], 0, map[], [], [];
      new;
      RunOfNothing();
    }

    /** Time passes: some running sessions finish. Returns what the world answers. */
    method Observe(ghost phase: Phase) returns (turn: Turn)
      requires At(phase) && world != []
      modifies `finished, `world, `log
      ensures At(phase) && old(log) <= log
      ensures world == old(world)[1..] && turn == old(world)[0]
      ensures forall k :: k in old(finished) ==> k in finished && finished[k] == old(finished)[k]
      ensures forall k :: k in old(world)[0].finishing && k < accepted ==> k in finished
    {
      hide Run;
      turn := world[0];
      world := world[1..];
      var done := map k | k in turn.finishing && k < accepted && k !in finished :: turn.finishing[k];
      RunOneMore(log, Finish(done));
      finished := finished + done;
      log := log + [Finish(done)];
    }

    /** `shutdown()`. */
    method AskShutdown() returns (stop: bool)
      requires At(AtShutdown) && world != []
      modifies `finished, `world, `log
      ensures stop == old(world)[0].stop
      ensures At(if stop then Leaving(Stopped) else AtThreshold)
      ensures old(log) <= log && world == old(world)[1..]
    {
      hide Run;
      var turn := Observe(AtShutdown);
      stop := turn.stop;
      RunOneMore(log, Shutdown(stop));
      log := log + [Shutdown(stop)];
    }

    /** `acceptor.accept()`, and whether `std::async` can start the session. */
    method AcceptSocket() returns (accepting: Accepted)
      requires At(AtAccept) && world != []
      modifies `finished, `world, `log
      ensures accepting == old(world)[0].accepted
      ensures accepting.Failed? ==> At(Leaving(ServerFailed))
      ensures accepting.Closed? ==> At(Leaving(Stopped))
      ensures accepting.Open? ==>
                Run(log) == Some(State(accepted + 1, sessions + [accepted], finished, reaped, AtShutdown))
      ensures old(log) <= log && world == old(world)[1..]
    {
      hide Run;
      var turn := Observe(AtAccept);
      accepting := turn.accepted;
      ghost var action := if accepting.Failed? then Fail else Accept(accepting.Open?);
      RunOneMore(log, action);
      log := log + [action];
    }

    /**
     * `cleanup`: every future is waited for; those that time out are kept in order, the others
     * are taken. If one rethrows, the futures left are those that unwinding destroys.
     */
    method Cleanup(moved: seq<nat>, wait: Wait) returns (running: seq<nat>, threw: bool)
      requires At(Cleaning(wait, |reaped|, moved, []))
      modifies `sessions, `finished, `reaped, `world, `log
      ensures if threw then At(Leaving(SessionThrew)) else At(Cleaning(wait, old(|reaped|), [], running))
      ensures old(log) <= log
      ensures |world| <= old(|world|)
      ensures moved != [] && old(world) != [] ==> |world| < old(|world|)
    {
      hide Run;
      running := [];
      ghost var before := |reaped|;
      for i := 0 to |moved|
        invariant At(Cleaning(wait, before, moved[i..], running))
        invariant old(log) <= log
        invariant |world| <= old(|world|)
        invariant i > 0 && old(world) != [] ==> |world| < old(|world|)
      {
        var s := moved[i];
        ghost var phase := Cleaning(wait, before, moved[i..], running);
        if world != [] {
          var _ := Observe(phase);
        }
        RunOneMore(log, Step);
        log := log + [Step];
        assert moved[i..][1..] == moved[i + 1..];
        if s !in finished {
          running := running + [s];
          continue;
        }
        reaped := reaped + [s];
        if finished[s].Threw? {
          sessions := running + moved[i + 1..];
          return running, true;
        }
      }
      assert moved[|moved|..] == [];
      return running, false;
    }

    /** The futures still held are destroyed: each destructor waits for its session. */
    method Join(ghost cause: Cause) returns (done: bool)
      requires At(Leaving(cause))
      modifies `finished, `world, `log
      ensures if done then At(Exited(cause)) else At(Leaving(cause))
      ensures old(log) <= log
      ensures done <==> forall k :: k in sessions ==> k in finished
      ensures !done ==> world == []
    {
      hide Run;
      while world != [] && !(forall k :: k in sessions ==> k in finished)
        invariant At(Leaving(cause)) && old(log) <= log
        decreases |world|
      {
        var _ := Observe(Leaving(cause));
      }
      done := forall k :: k in sessions ==> k in finished;
      if done {
        RunOneMore(log, Exit);
        log := log + [Exit];
      }
    }

    /** `sessions = cleanup(std::move(sessions), wait)`. */
    method CleanupAll(wait: Wait) returns (threw: bool)
      requires Run(log) == Some(State(accepted, [], finished, reaped, Cleaning(wait, |reaped|, sessions, [])))
      modifies `sessions, `finished, `reaped, `world, `log
      ensures if threw then At(Leaving(SessionThrew)) else At(AtMaximum)
      ensures old(log) <= log
      ensures |world| <= old(|world|)
      ensures old(sessions) != [] && old(world) != [] ==> |world| < old(|world|)
    {
      hide Run;
      var moved := sessions;
      sessions := [];
      var running: seq<nat>;
      running, threw := Cleanup(moved, wait);
      if !threw {
        RunOneMore(log, Step);
        log := log + [Step];
        sessions := running;
      }
    }

    /** Lines 114-119: the polling clean-up from 80 sessions on, the blocking ones from 160 on. */
    method MakeRoom() returns (outcome: Room)
      requires At(AtThreshold)
      modifies `sessions, `finished, `reaped, `world, `log
      ensures match outcome
              case Room => At(AtAccept)
              case Rethrown => At(Leaving(SessionThrew))
              case Blocked => At(AtMaximum) && |sessions| >= MAXIMUM_SESSIONS && world == []
      ensures old(|sessions|) >= 80 && !outcome.Rethrown? ==>
                forall k :: k in old(sessions) && k in old(finished) ==> k in reaped
      ensures old(|sessions|) < 80 ==>
                outcome.Room? && sessions == old(sessions) && reaped == old(reaped)
      ensures old(log) <= log
      ensures |world| <= old(|world|)
    {
      hide Run;
      ghost var before := log;
      RunOneMore(log, Step);
      log := log + [Step];
      if |sessions| >= CLEANUP_THRESHOLD {
        var threw := CleanupAll(Poll);
        if threw {
          return Rethrown;
        }
      }
      while |sessions| >= MAXIMUM_SESSIONS
        invariant At(AtMaximum)
        invariant old(|sessions|) < 80 ==> sessions == old(sessions) && reaped == old(reaped)
        invariant old(log) <= log
        invariant |world| <= old(|world|)
        decreases |world|
      {
        if world == [] {
          FinishedWereTaken(before, AtMaximum);
          return Blocked;
        }
        RunOneMore(log, Step);
        log := log + [Step];
        var threw := CleanupAll(Block);
        if threw {
          return Rethrown;
        }
      }
      RunOneMore(log, Step);
      log := log + [Step];
      FinishedWereTaken(before, AtAccept);
      return Room;
    }

    /** What the clean-up from 80 sessions on has done by the time of the accept. */
    lemma FinishedWereTaken(before: seq<Action>, phase: Phase)
      requires At(phase) && before <= log && Run(before).Some?
      requires phase.AtMaximum? || phase.AtAccept?
      requires Run(before).value.phase.AtThreshold?
      ensures var s := Run(before).value;
              |s.sessions| >= 80 ==>
                forall k :: k in s.sessions && k in s.finished ==> k in reaped
    {
      hide Run;
      var s := Run(before).value;
      var actions := log[|before|..];
      assert before + actions == log;
      if |s.sessions| >= 80 {
        forall k | k in s.sessions && k in s.finished
          ensures k in reaped
        {
          FinishedAreTakenFirst(before, actions, k);
        }
      }
    }

    /**
     * `RunForTestImpl` under `RunImpl`: the exit code, or nothing when the observations end
     * first.
     */
    method RunForTest() returns (code: Option<nat>)
      requires At(AtShutdown)
      modifies this
      ensures exists phase :: At(phase)
      ensures old(log) <= log
      ensures match code
              case Some(c) => exists cause: Cause :: At(Exited(cause)) && c == cause.Code()
              case None => world == []
    {
      hide Run;
      var leaving: Option<Cause> := None;
      while world != []
        invariant leaving.None? && At(AtShutdown)
        invariant old(log) <= log
        decreases |world|
      {
        var stop := AskShutdown();
        if stop {
          leaving := Some(Stopped);
          break;
        }
        var outcome := MakeRoom();
        if outcome.Rethrown? {
          leaving := Some(SessionThrew);
          break;
        }
        if outcome.Blocked? || world == [] {
          assert At(AtMaximum) || At(AtAccept);
          return None;
        }
        var accepting := AcceptSocket();
        if !accepting.Open? {
          leaving := Some(if accepting.Failed? then ServerFailed else Stopped);
          break;
        }
        sessions := sessions + [accepted];
        accepted := accepted + 1;
      }
      if leaving.None? {
        return None;
      }
      var done := Join(leaving.value);
      return if done then Some(leaving.value.Code()) else None;
    }
  }

  /**
   * What a finished run guarantees: every accepted session has ended; the exit code is 1 exactly
   * if a session that was taken threw, or the server could not accept or start one.
   */
  lemma FinishedRun(loop: AcceptLoop, cause: Cause)
    requires loop.At(Exited(cause))
    ensures forall k: nat :: k < loop.accepted ==> k in loop.finished
    ensures forall k :: k in loop.reaped ==> k < loop.accepted
    ensures forall k: nat :: k < loop.accepted ==> (k in loop.sessions <==> k !in loop.reaped)
    ensures cause == SessionThrew <==> exists k :: k in loop.reaped && loop.finished[k] == Threw
    ensures cause == ServerFailed <==> Fail in loop.log
    ensures cause.Code() == 1 <==>
            (exists k :: k in loop.reaped && loop.finished[k] == Threw) || Fail in loop.log
    ensures cause.Code() == 0 <==>
            (forall k :: k in loop.reaped ==> loop.finished[k] == Returned) && Fail !in loop.log
    ensures |loop.sessions| <= MAXIMUM_SESSIONS
  {
    EveryRun(loop.log);
    FailuresAreLogged(loop.log);
    hide Run;
    if cause == SessionThrew {
      var k := loop.reaped[|loop.reaped| - 1];
      assert k in loop.reaped;
    }
  }
}
