/**
 * The pieces together: a server whose sessions call a CloudEvent function. What the function
 * throws, or what a request makes the parsers throw, decides how sessions and the server end.
 */
module Framework {
  import opened Wrappers
  import opened CloudEvents
  import opened JsonValues
  import Delivery
  import Sessions
  import Scheduler
  import Server

  /**
   * What was called before round `i` of a session is arbitrary: all sessions share the function,
   * and their calls interleave.
   */
  type History = nat -> seq<CloudEvent>

  function AnswerOf(outcome: Delivery.Outcome): Sessions.Answer {
    match outcome
    case Responds(status, body) => Sessions.Answers(Sessions.Response(status, body, None, None, false))
    case Escapes => Sessions.HandlerThrows
  }

  /** What a session calls for each request. */
  function FunctionHandler(p: Platform, throws: Delivery.Behaviour, history: History): Sessions.Handler {
    (i: nat, request: Sessions.Request) =>
      AnswerOf(Delivery.OutcomeOf(p, throws, history(i), request.content))
  }

  /** A request that gets a response is answered with its status and its body. */
  lemma HandlerAnswers(p: Platform, throws: Delivery.Behaviour, history: History, i: nat,
                       request: Sessions.Request, status: nat, body: string)
    requires Delivery.OutcomeOf(p, throws, history(i), request.content) ==
             Delivery.Responds(status, body)
    ensures var answer := FunctionHandler(p, throws, history)(i, request);
            answer.Answers? && answer.response.status == status && answer.response.body == body
  {
    hide Delivery.OutcomeOf;
  }

  /** A request that is raised against with a text that cannot be reported, and no other, throws. */
  lemma HandlerThrowsExactly(p: Platform, throws: Delivery.Behaviour, history: History, i: nat,
                             request: Sessions.Request)
    ensures Sessions.Throws(FunctionHandler(p, throws, history)(i, request)) <==>
            Delivery.IsUnreportable(p, Delivery.Raised(p, throws, history(i), request.content))
  {
    hide Delivery.Raised;
    Delivery.OutcomeIsExact(p, throws, history(i), request.content);
  }

  /**
   * Round `i` of a session is reached, and its request raises an exception that cannot be
   * reported.
   */
  ghost predicate EscapesInRound(p: Platform, throws: Delivery.Behaviour, history: History,
                                 turns: seq<Sessions.Turn>, i: nat)
  {
    && i < |turns|
    && (forall j :: 0 <= j < i ==>
          Sessions.FirstTurnCompletes(FunctionHandler(p, throws, history), turns[j..], j))
    && turns[i].read.Delivered?
    && Delivery.IsUnreportable(
         p, Delivery.Raised(p, throws, history(i), turns[i].read.request.content))
  }

  /** A session ends by an exception exactly if one of its requests raises an unreportable one. */
  lemma SessionThrowsExactly(p: Platform, throws: Delivery.Behaviour, history: History,
                             turns: seq<Sessions.Turn>)
    ensures Sessions.EndingOf(FunctionHandler(p, throws, history), turns, 0) == Sessions.Rethrown <==>
            exists i: nat :: EscapesInRound(p, throws, history, turns, i)
  {
    var handler := FunctionHandler(p, throws, history);
    Sessions.RethrownExactly(handler, turns, 0);
    hide Delivery.Raised, Delivery.IsUnreportable, Sessions.EndingOf, FunctionHandler,
         Sessions.FirstTurnCompletes;
    if i: nat :| Sessions.ThrowsInRound(handler, turns, 0, i) {
      HandlerThrowsExactly(p, throws, history, i, turns[i].read.request);
      assert EscapesInRound(p, throws, history, turns, i);
    }
    if i: nat :| EscapesInRound(p, throws, history, turns, i) {
      HandlerThrowsExactly(p, throws, history, i, turns[i].read.request);
      assert Sessions.ThrowsInRound(handler, turns, 0, i);
    }
  }

  /** What the future of a session holds. */
  function FutureOf(ending: Sessions.Ending): Scheduler.Outcome {
    if ending == Sessions.Rethrown then Scheduler.Threw else Scheduler.Returned
  }

  /** The sessions that finished did so with what their conversations end in. */
  ghost predicate RunSessions(finished: map<nat, Scheduler.Outcome>, p: Platform,
                              throws: Delivery.Behaviour, histories: nat -> History,
                              scripts: nat -> seq<Sessions.Turn>)
  {
    forall k :: k in finished ==>
      var ending := Sessions.EndingOf(FunctionHandler(p, throws, histories(k)), scripts(k), 0);
      ending != Sessions.Waiting && finished[k] == FutureOf(ending)
  }

  /**
   * The exit code of a server for a CloudEvent function is 1 exactly if it could not accept or
   * start a session, or it took the future of a session in which an exception could not be
   * reported.
   */
  lemma ExitCodeIsExact(loop: Server.AcceptLoop, cause: Scheduler.Cause, p: Platform,
                        throws: Delivery.Behaviour, histories: nat -> History,
                        scripts: nat -> seq<Sessions.Turn>)
    requires loop.At(Scheduler.Exited(cause))
    requires RunSessions(loop.finished, p, throws, histories, scripts)
    ensures cause.Code() == 1 <==>
            || Scheduler.Fail in loop.log
            || exists k, i: nat ::
                 k in loop.reaped && EscapesInRound(p, throws, histories(k), scripts(k), i)
    ensures cause.Code() == 0 || cause.Code() == 1
  {
    Server.FinishedRun(loop, cause);
    hide EscapesInRound, Sessions.EndingOf, FunctionHandler;
    forall k | k in loop.reaped
      ensures loop.finished[k] == Scheduler.Threw <==>
              exists i: nat :: EscapesInRound(p, throws, histories(k), scripts(k), i)
    {
      SessionThrowsExactly(p, throws, histories(k), scripts(k));
      ReapedIsFinished(loop, cause, k);
    }
  }

  lemma ReapedIsFinished(loop: Server.AcceptLoop, cause: Scheduler.Cause, k: nat)
    requires loop.At(Scheduler.Exited(cause)) && k in loop.reaped
    ensures k in loop.finished
  {
    Server.FinishedRun(loop, cause);
  }
}
