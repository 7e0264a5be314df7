/**
 * One connection: read a request, call the handler, flush the standard streams, write the
 * response, until the stream ends or fails. What the peer does is a script of turns. The handler
 * may keep a state: what it does with a request also depends on the round.
 */
module Sessions {
  import opened Wrappers
  import HttpEvents

  const VERSION := "Boost.Beast"

  datatype Request = Request(content: HttpEvents.Request, keepAlive: bool)

  datatype Response = Response(
    status: nat,
    body: string,
    server: Option<string>,
    contentLength: Option<nat>,
    keepAlive: bool)

  /** What the handler does with a request. */
  datatype Answer = Answers(response: Response) | HandlerThrows

  type Handler = (nat, Request) -> Answer

  /** What `read` delivers. */
  datatype ReadResult = Delivered(request: Request) | EndOfStream | ReadError

  /** One round seen from the peer: what is read, and whether the response can be written. */
  datatype Turn = Turn(read: ReadResult, writable: bool)

  datatype Event =
    | Read(request: Request)
    | Handled(response: Response)
    | Flushed
    | Written(response: Response, ok: bool)
    | Reported(what: string)
    | ShutDown

  /** How the call ends; `Waiting` if the script ends in a blocked read. */
  datatype Ending = Closed | Failed | Rethrown | Waiting

  /** `prepare_payload()` throws for a body in a response that must not have one. */
  predicate IsUnsendable(r: Response) {
    r.body != "" && (100 <= r.status < 200 || r.status == 204 || r.status == 304)
  }

  /** What the session adds to the handler's response before it writes it. */
  function Stamped(r: Response, keepAlive: bool): Response {
    r.(server := Some(VERSION), contentLength := Some(|r.body|), keepAlive := keepAlive)
  }

  /** The four events of a round. */
  function Round(request: Request, response: Response, ok: bool): seq<Event> {
    [Read(request), Handled(response), Flushed, Written(Stamped(response, request.keepAlive), ok)]
  }

  /** What a session does in answer to a script, from round `n` on. */
  function Conversation(handler: Handler, turns: seq<Turn>, n: nat): seq<Event>
    decreases |turns|
  {
    if turns == [] then []
    else
      match turns[0].read
      case EndOfStream => [ShutDown]
      case ReadError => [Reported("read")]
      case Delivered(request) =>
        match handler(n, request)
        case HandlerThrows => [Read(request)]
        case Answers(response) =>
          if IsUnsendable(response) then [Read(request), Handled(response), Flushed]
          else
            Round(request, response, turns[0].writable) +
            if turns[0].writable then Conversation(handler, turns[1..], n + 1)
            else [Reported("write")]
  }

  function EndingOf(handler: Handler, turns: seq<Turn>, n: nat): Ending
    decreases |turns|
  {
    if turns == [] then Waiting
    else
      match turns[0].read
      case EndOfStream => Closed
      case ReadError => Failed
      case Delivered(request) =>
        if Throws(handler(n, request)) then Rethrown
        else if turns[0].writable then EndingOf(handler, turns[1..], n + 1)
        else Failed
  }

  /** The answer ends the session by an exception: the handler's, or that of an unsendable body. */
  predicate Throws(answer: Answer) {
    answer.HandlerThrows? || IsUnsendable(answer.response)
  }

  /** The connection and the standard streams: what is still to come, and what was done. */
  class Connection {
    var turns: seq<Turn>
    var log: seq<Event>

    constructor (turns: seq<Turn>)
      ensures this.turns == turns && log == []
    {
      this.turns, log := turns, [];
    }

    method DoRead() returns (r: ReadResult)
      requires turns != []
      modifies `log
      ensures r == turns[0].read
      ensures log == old(log) + if r.Delivered? then [Read(r.request)] else []
    {
      r := turns[0].read;
      if r.Delivered? {
        log := log + [Read(r.request)];
      }
    }

    method DoWrite(response: Response) returns (ok: bool)
      requires turns != []
      modifies this
      ensures ok == old(turns)[0].writable && turns == old(turns)[1..]
      ensures log == old(log) + [Written(response, ok)]
    {
      ok := turns[0].writable;
      turns := turns[1..];
      log := log + [Written(response, ok)];
    }

    method Record(e: Event)
      modifies `log
      ensures log == old(log) + [e]
    {
      log := log + [e];
    }
  }

  lemma FirstTurn(handler: Handler, turns: seq<Turn>, n: nat)
    requires turns != []
    ensures var events, ending := Conversation(handler, turns, n), EndingOf(handler, turns, n);
            match turns[0].read
            case EndOfStream => events == [ShutDown] && ending == Closed
            case ReadError => events == [Reported("read")] && ending == Failed
            case Delivered(request) =>
              match handler(n, request)
              case HandlerThrows => events == [Read(request)] && ending == Rethrown
              case Answers(response) =>
                if IsUnsendable(response)
                then events == [Read(request), Handled(response), Flushed] && ending == Rethrown
                else if turns[0].writable
                then
                  && events == Round(request, response, true) + Conversation(handler, turns[1..], n + 1)
                  && ending == EndingOf(handler, turns[1..], n + 1)
                else
                  events == Round(request, response, false) + [Reported("write")] && ending == Failed
  {
  }

  lemma NoTurns(handler: Handler, n: nat)
    ensures Conversation(handler, [], n) == [] && EndingOf(handler, [], n) == Waiting
  {
  }

  lemma StampedInSteps(r: Response, keepAlive: bool)
    ensures r.(server := Some(VERSION)).(contentLength := Some(|r.body|)).(keepAlive := keepAlive)
            == Stamped(r, keepAlive)
  {
  }

  lemma RoundRecorded(log: seq<Event>, request: Request, response: Response, ok: bool, more: seq<Event>)
    ensures log + [Read(request)] + [Handled(response)] + [Flushed]
            + [Written(Stamped(response, request.keepAlive), ok)] + more ==
            log + (Round(request, response, ok) + more)
  {
  }

  method HandleSession(socket: Connection, handler: Handler) returns (ending: Ending)
    modifies socket
    ensures socket.log == old(socket.log) + Conversation(handler, old(socket.turns), 0)
    ensures ending == EndingOf(handler, old(socket.turns), 0)
  {
    hide Conversation, EndingOf, Round, Stamped;
    ghost var start := socket.log;
    ghost var script := socket.turns;
    var n := 0;
    while socket.turns != []
      invariant start + Conversation(handler, script, 0)
             == socket.log + Conversation(handler, socket.turns, n)
      invariant EndingOf(handler, script, 0) == EndingOf(handler, socket.turns, n)
      decreases |socket.turns|
    {
      ghost var before := socket.log;
      FirstTurn(handler, socket.turns, n);
      var r := socket.DoRead();
      if r.EndOfStream? {
        socket.Record(ShutDown);
        return Closed;
      }
      if r.ReadError? {
        socket.Record(Reported("read"));
        return Failed;
      }
      var request := r.request;
      var keepAlive := request.keepAlive;
      var answer := handler(n, request);
      n := n + 1;
      if answer.HandlerThrows? {
        return Rethrown;
      }
      var response := answer.response;
      socket.Record(Handled(response));
      socket.Record(Flushed);
      response := response.(server := Some(VERSION));
      if IsUnsendable(response) {
        assert before + [Read(request)] + [Handled(answer.response)] + [Flushed]
            == before + [Read(request), Handled(answer.response), Flushed];
        return Rethrown;
      }
      response := response.(contentLength := Some(|response.body|));
      response := response.(keepAlive := keepAlive);
      var ok := socket.DoWrite(response);
      StampedInSteps(answer.response, keepAlive);
      RoundRecorded(before, request, answer.response, ok,
                    if ok then Conversation(handler, socket.turns, n) else [Reported("write")]);
      if !ok {
        socket.Record(Reported("write"));
        return Failed;
      }
    }
    NoTurns(handler, n);
    return Waiting;
  }

  // ----- What holds of every conversation -----

  function Requests(events: seq<Event>): seq<Request> {
    if events == [] then []
    else
      var n := |events| - 1;
      Requests(events[..n]) + if events[n].Read? then [events[n].request] else []
  }

  /** The responses written, in order, whether or not writing succeeded. */
  function Responses(events: seq<Event>): seq<Response> {
    if events == [] then []
    else
      var n := |events| - 1;
      Responses(events[..n]) + if events[n].Written? then [events[n].response] else []
  }

  predicate IsTerminal(e: Event) {
    e.ShutDown? || e.Reported?
  }

  /** What is written: the handler's status and body, its length, and the flag of the request. */
  predicate IsAnswer(written: Response, answer: Response, keepAlive: bool) {
    && written.status == answer.status && written.body == answer.body
    && written.contentLength == Some(|answer.body|)
    && written.keepAlive == keepAlive && written.server == Some("Boost.Beast")
  }

  /** Round `n`: what is read, its answer, and the flush. */
  predicate IsRoundHead(handler: Handler, n: nat, e0: Event, e1: Event, e2: Event) {
    && e0.Read? && e1.Handled? && e2.Flushed?
    && handler(n, e0.request) == Answers(e1.response)
  }

  /** The first turn of a script brings a request that is answered and written. */
  predicate FirstTurnCompletes(handler: Handler, turns: seq<Turn>, n: nat) {
    && turns != []
    && turns[0].read.Delivered?
    && !Throws(handler(n, turns[0].read.request))
    && turns[0].writable
  }

  lemma AfterFirstTurn(handler: Handler, turns: seq<Turn>, n: nat)
    requires FirstTurnCompletes(handler, turns, n)
    ensures var events, rest := Conversation(handler, turns, n), Conversation(handler, turns[1..], n + 1);
            && |events| == 4 + |rest|
            && events[0].Read? && events[3].Written? && events[3].ok
            && IsRoundHead(handler, n, events[0], events[1], events[2])
            && !IsUnsendable(events[1].response)
            && IsAnswer(events[3].response, events[1].response, events[0].request.keepAlive)
            && (forall i :: 0 <= i < |rest| ==> events[4 + i] == rest[i])
            && (forall i {:trigger events[i]} :: 4 <= i < |events| ==> events[i] == rest[i - 4])
  {
  }

  /**
   * The events of round `round`: read, handle, flush, write, or the last event of all. A handled
   * request is written, unless its response is unsendable: then all ends after the flush.
   */
  predicate CycleAt(handler: Handler, first: nat, events: seq<Event>, round: nat, k: nat)
    requires 4 * round + k < |events|
  {
    var i := 4 * round;
    && (events[i].Read? || (IsTerminal(events[i]) && i == |events| - 1))
    && (k > 0 ==>
          && i + 2 < |events|
          && IsRoundHead(handler, first + round, events[i], events[i + 1], events[i + 2])
          && if IsUnsendable(events[i + 1].response) then |events| == i + 3
             else
               && i + 3 < |events| && events[i + 3].Written?
               && IsAnswer(events[i + 3].response, events[i + 1].response, events[i].request.keepAlive))
  }

  lemma FirstRound(handler: Handler, turns: seq<Turn>, first: nat, k: nat)
    requires k < 4 && k < |Conversation(handler, turns, first)|
    ensures CycleAt(handler, first, Conversation(handler, turns, first), 0, k)
  {
    hide IsUnsendable;
  }

  lemma LastRound(handler: Handler, turns: seq<Turn>, first: nat, round: nat, k: nat)
    requires !FirstTurnCompletes(handler, turns, first) && round > 0
    requires k < 4 && 4 * round + k < |Conversation(handler, turns, first)|
    ensures CycleAt(handler, first, Conversation(handler, turns, first), round, k)
  {
    hide IsUnsendable;
  }

  lemma CycleShifts(handler: Handler, first: nat, events: seq<Event>, rest: seq<Event>,
                    round: nat, k: nat)
    requires round > 0 && |events| == 4 + |rest|
    requires forall i {:trigger events[i]} :: 4 <= i < |events| ==> events[i] == rest[i - 4]
    requires 4 * round + k < |events| && CycleAt(handler, first + 1, rest, round - 1, k)
    ensures CycleAt(handler, first, events, round, k)
  {
    hide IsRoundHead, IsUnsendable, IsAnswer;
    var i := 4 * (round - 1);
    assert i + 4 == 4 * round && first + 1 + (round - 1) == first + round;
    assert events[i + 4] == rest[i];
    if k > 0 {
      assert events[i + 5] == rest[i + 1] && events[i + 6] == rest[i + 2];
      assert i + 3 < |rest| ==> events[i + 7] == rest[i + 3];
    }
  }

  /** Every event of every conversation is at its place in the cycle. */
  lemma {:induction false} Cycle(handler: Handler, turns: seq<Turn>, first: nat, round: nat, k: nat)
    requires k < 4 && 4 * round + k < |Conversation(handler, turns, first)|
    ensures CycleAt(handler, first, Conversation(handler, turns, first), round, k)
    decreases round
  {
    hide Conversation, CycleAt, IsRoundHead, IsUnsendable, Stamped, Throws, IsAnswer;
    if round == 0 {
      FirstRound(handler, turns, first, k);
    } else if !FirstTurnCompletes(handler, turns, first) {
      LastRound(handler, turns, first, round, k);
    } else {
      AfterFirstTurn(handler, turns, first);
      Cycle(handler, turns[1..], first + 1, round - 1, k);
      CycleShifts(handler, first, Conversation(handler, turns, first),
                  Conversation(handler, turns[1..], first + 1), round, k);
    }
  }

  /** Response `i` answers request `i`, and carries the keep-alive flag of that request. */
  predicate AnswersInOrder(handler: Handler, first: nat, requests: seq<Request>,
                           responses: seq<Response>)
  {
    && |responses| <= |requests| <= |responses| + 1
    && forall i :: 0 <= i < |responses| ==>
         && handler(first + i, requests[i]).Answers?
         && IsAnswer(responses[i], handler(first + i, requests[i]).response, requests[i].keepAlive)
  }

  /**
   * After `k` events of a round: one response for each round before, each the stamped answer to
   * the request in the same place, and the request of this round.
   */
  predicate AnsweredAt(handler: Handler, first: nat, events: seq<Event>, round: nat, k: nat)
    requires 4 * round + k <= |events|
  {
    var start := 4 * round;
    var requests, responses := Requests(events[..start + k]), Responses(events[..start + k]);
    && AnswersInOrder(handler, first, requests, responses)
    && |responses| == round
    && if k > 0 && events[start].Read?
       then |requests| == round + 1 && requests[round] == events[start].request
       else |requests| == round
  }

  lemma CountOneMore(events: seq<Event>, n: nat)
    requires n < |events|
    ensures Requests(events[..n + 1]) ==
            Requests(events[..n]) + if events[n].Read? then [events[n].request] else []
    ensures Responses(events[..n + 1]) ==
            Responses(events[..n]) + if events[n].Written? then [events[n].response] else []
  {
    assert events[..n + 1][..n] == events[..n];
  }

  lemma OneMoreEvent(handler: Handler, first: nat, events: seq<Event>, round: nat, k: nat)
    requires k < 4 && 4 * round + k < |events|
    requires CycleAt(handler, first, events, round, k) && AnsweredAt(handler, first, events, round, k)
    ensures k < 3 ==> AnsweredAt(handler, first, events, round, k + 1)
    ensures k == 3 ==> AnsweredAt(handler, first, events, round + 1, 0)
  {
    hide Requests, Responses, IsAnswer, IsUnsendable;
    CountOneMore(events, 4 * round + k);
  }

  lemma {:induction false} AnswersWithinRound(handler: Handler, turns: seq<Turn>, first: nat,
                                              round: nat, k: nat)
    requires k < 4 && 4 * round + k <= |Conversation(handler, turns, first)|
    ensures AnsweredAt(handler, first, Conversation(handler, turns, first), round, k)
    decreases 4 * round + k
  {
    hide Conversation, AnsweredAt, CycleAt;
    var events := Conversation(handler, turns, first);
    if k > 0 {
      AnswersWithinRound(handler, turns, first, round, k - 1);
      Cycle(handler, turns, first, round, k - 1);
      OneMoreEvent(handler, first, events, round, k - 1);
    } else if round > 0 {
      AnswersWithinRound(handler, turns, first, round - 1, 3);
      Cycle(handler, turns, first, round - 1, 3);
      OneMoreEvent(handler, first, events, round - 1, 3);
    } else {
      NothingAnswered(handler, first, events);
    }
  }

  lemma NothingAnswered(handler: Handler, first: nat, events: seq<Event>)
    ensures AnsweredAt(handler, first, events, 0, 0)
  {
  }

  /** The same after any number of events. */
  lemma EveryPrefixAnswers(handler: Handler, turns: seq<Turn>, first: nat, n: nat)
    requires n <= |Conversation(handler, turns, first)|
    ensures var p := Conversation(handler, turns, first)[..n];
            AnswersInOrder(handler, first, Requests(p), Responses(p))
  {
    AnswersWithinRound(handler, turns, first, n / 4, n % 4);
  }

  /**
   * The socket is shut down only at the end, exactly when the peer ended the stream; then every
   * response could be written and every request read has been answered.
   */
  lemma {:induction false} ShutDownLast(handler: Handler, turns: seq<Turn>, first: nat)
    returns (rounds: nat)
    ensures var events := Conversation(handler, turns, first);
            && (EndingOf(handler, turns, first) == Closed <==> ShutDown in events)
            && (ShutDown in events ==>
                  && |events| == 4 * rounds + 1 && events[4 * rounds] == ShutDown
                  && forall e :: e in events && e.Written? ==> e.ok)
    decreases |turns|
  {
    hide IsAnswer, Stamped, IsUnsendable, IsRoundHead;
    rounds := 0;
    if FirstTurnCompletes(handler, turns, first) {
      AfterFirstTurn(handler, turns, first);
      assert EndingOf(handler, turns, first) == EndingOf(handler, turns[1..], first + 1);
      hide Conversation, EndingOf, FirstTurnCompletes;
      var more := ShutDownLast(handler, turns[1..], first + 1);
      rounds := more + 1;
      var events := Conversation(handler, turns, first);
      var rest := Conversation(handler, turns[1..], first + 1);
      assert events[..4] == [events[0], events[1], events[2], events[3]];
      assert events == events[..4] + rest;
    }
  }

  lemma AllAnsweredAtShutDown(handler: Handler, turns: seq<Turn>, first: nat)
    requires EndingOf(handler, turns, first) == Closed
    ensures var events := Conversation(handler, turns, first);
            && events != [] && events[|events| - 1] == ShutDown && ShutDown !in events[..|events| - 1]
            && AnswersInOrder(handler, first, Requests(events), Responses(events))
            && |Requests(events)| == |Responses(events)|
  {
    var events := Conversation(handler, turns, first);
    var rounds := ShutDownLast(handler, turns, first);
    AnswersWithinRound(handler, turns, first, rounds, 1);
    assert events[..|events|] == events;
  }

  /** Round `i` is reached and its answer ends the session by an exception. */
  ghost predicate ThrowsInRound(handler: Handler, turns: seq<Turn>, first: nat, i: nat) {
    && i < |turns|
    && (forall j :: 0 <= j < i ==> FirstTurnCompletes(handler, turns[j..], first + j))
    && turns[i].read.Delivered? && Throws(handler(first + i, turns[i].read.request))
  }

  /** The session's future rethrows exactly if the answer of some round that is reached throws. */
  lemma {:induction false} RethrownExactly(handler: Handler, turns: seq<Turn>, first: nat)
    ensures EndingOf(handler, turns, first) == Rethrown <==>
            exists i: nat :: ThrowsInRound(handler, turns, first, i)
    decreases |turns|
  {
    if FirstTurnCompletes(handler, turns, first) {
      var rest, second := turns[1..], first + 1;
      RethrownExactly(handler, rest, second);
      if i: nat :| ThrowsInRound(handler, rest, second, i) {
        LaterRound(handler, turns, first, i);
      }
      if i: nat :| ThrowsInRound(handler, turns, first, i) {
        EarlierRound(handler, turns, first, i);
      }
    } else if turns != [] && turns[0].read.Delivered? && Throws(handler(first, turns[0].read.request)) {
      assert ThrowsInRound(handler, turns, first, 0);
    } else if i: nat :| ThrowsInRound(handler, turns, first, i) {
      OnlyFirstRound(handler, turns, first, i);
    }
  }

  lemma OnlyFirstRound(handler: Handler, turns: seq<Turn>, first: nat, i: nat)
    requires ThrowsInRound(handler, turns, first, i) && !FirstTurnCompletes(handler, turns, first)
    ensures i == 0
  {
    assert turns[0..] == turns;
  }

  lemma LaterRound(handler: Handler, turns: seq<Turn>, first: nat, i: nat)
    requires FirstTurnCompletes(handler, turns, first)
    requires ThrowsInRound(handler, turns[1..], first + 1, i)
    ensures ThrowsInRound(handler, turns, first, i + 1)
  {
    assert turns[0..] == turns;
    forall j | 0 <= j < i + 1
      ensures FirstTurnCompletes(handler, turns[j..], first + j)
    {
      if j > 0 {
        assert turns[1..][j - 1..] == turns[j..];
        assert FirstTurnCompletes(handler, turns[1..][j - 1..], first + 1 + (j - 1));
      }
    }
  }

  lemma EarlierRound(handler: Handler, turns: seq<Turn>, first: nat, i: nat)
    requires FirstTurnCompletes(handler, turns, first)
    requires ThrowsInRound(handler, turns, first, i)
    ensures i > 0 && ThrowsInRound(handler, turns[1..], first + 1, i - 1)
  {
    assert i > 0;
    forall j | 0 <= j < i - 1
      ensures FirstTurnCompletes(handler, turns[1..][j..], first + 1 + j)
    {
      assert turns[1..][j..] == turns[j + 1..];
      assert FirstTurnCompletes(handler, turns[j + 1..], first + (j + 1));
    }
  }

  /** A report is of a read error, between rounds, or of a response that was not written. */
  predicate ReportAt(events: seq<Event>, i: nat)
    requires i < |events|
  {
    events[i].Reported? ==>
      if events[i].what == "write" then i > 0 && events[i - 1].Written? && !events[i - 1].ok
      else events[i].what == "read" && (i == 0 || (events[i - 1].Written? && events[i - 1].ok))
  }

  /** Reports are where they belong, and the session fails exactly if its last event is one. */
  lemma {:induction false} FailedExactly(handler: Handler, turns: seq<Turn>, first: nat)
    ensures var events := Conversation(handler, turns, first);
            && (EndingOf(handler, turns, first) == Failed <==>
                  events != [] && events[|events| - 1].Reported?)
            && forall i :: 0 <= i < |events| ==> ReportAt(events, i)
    decreases |turns|
  {
    if FirstTurnCompletes(handler, turns, first) {
      AfterFirstTurn(handler, turns, first);
      assert EndingOf(handler, turns, first) == EndingOf(handler, turns[1..], first + 1);
      hide Conversation, EndingOf, FirstTurnCompletes, ReportAt, IsAnswer, IsRoundHead;
      FailedExactly(handler, turns[1..], first + 1);
      var events := Conversation(handler, turns, first);
      var rest := Conversation(handler, turns[1..], first + 1);
      RoundHasNoReport(handler, turns, first);
      ReportsShift(events, rest);
    } else {
      hide IsUnsendable, Stamped;
      NoFirstRound(handler, turns, first);
    }
  }

  lemma NoFirstRound(handler: Handler, turns: seq<Turn>, first: nat)
    requires !FirstTurnCompletes(handler, turns, first)
    ensures var events := Conversation(handler, turns, first);
            && (EndingOf(handler, turns, first) == Failed <==>
                  events != [] && events[|events| - 1].Reported?)
            && forall i :: 0 <= i < |events| ==> ReportAt(events, i)
  {
    hide IsUnsendable, Stamped;
  }

  lemma ReportsShift(events: seq<Event>, rest: seq<Event>)
    requires |events| == 4 + |rest| && events[3].Written? && events[3].ok
    requires forall i :: 0 <= i < 4 ==> !events[i].Reported?
    requires forall i :: 0 <= i < |rest| ==> events[4 + i] == rest[i]
    requires forall i :: 0 <= i < |rest| ==> ReportAt(rest, i)
    ensures forall i :: 0 <= i < |events| ==> ReportAt(events, i)
  {
    forall i | 0 <= i < |events|
      ensures ReportAt(events, i)
    {
      if i >= 4 {
        assert events[4 + (i - 4)] == rest[i - 4] && ReportAt(rest, i - 4);
        assert i > 4 ==> events[4 + (i - 5)] == rest[i - 5];
      }
    }
  }

  lemma RoundHasNoReport(handler: Handler, turns: seq<Turn>, first: nat)
    requires FirstTurnCompletes(handler, turns, first)
    ensures var events := Conversation(handler, turns, first);
            |events| >= 4 && forall i :: 0 <= i < 4 ==> !events[i].Reported?
  {
    AfterFirstTurn(handler, turns, first);
  }
}
