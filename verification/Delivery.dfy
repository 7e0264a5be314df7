/** Handing the events of a request to the user's function, and the response that results. */
module Delivery {
  import opened Wrappers
  import opened JsonValues
  import opened CloudEvents
  import opened HttpEvents
  import JsonEvents

  /** What is thrown: a `std::exception` with its text, or something else. */
  datatype Exception = Standard(what: string) | Unknown

  /** What a call throws, given the calls before it and the event it gets. */
  type Behaviour = (seq<CloudEvent>, CloudEvent) -> Option<Exception>

  /** The user's function. All that is seen of it is that it is called and what it throws. */
  class UserFunction {
    const throws: Behaviour
    var calls: seq<CloudEvent>

    constructor (throws: Behaviour)
      ensures this.throws == throws && calls == []
    {
      this.throws := throws;
      calls := [];
    }

    method Call(e: CloudEvent) returns (thrown: Option<Exception>)
      modifies this
      ensures calls == old(calls) + [e]
      ensures thrown == throws(old(calls), e)
    {
      thrown := throws(calls, e);
      calls := calls + [e];
    }
  }

  const OK := 200
  const NOT_FOUND := 404
  const INTERNAL_SERVER_ERROR := 500

  /** What the caller of the handler gets: a response, or an exception. */
  datatype Outcome = Responds(status: nat, body: string) | Escapes

  const STANDARD_EXCEPTION := "standard C++ exception thrown by the function: "
  const UNKNOWN_EXCEPTION := "unknown C++ exception thrown by the function"

  function ErrorReport(message: string): Json {
    Obj(map["severity" := Str("error"), "message" := Str(message)])
  }

  /** Printing the report throws if its message is not valid UTF-8; nothing catches that. */
  function Reported(p: Platform, ex: Exception): Outcome {
    match ex
    case Standard(what) =>
      if p.validUtf8(STANDARD_EXCEPTION + what)
      then Responds(INTERNAL_SERVER_ERROR, p.dumpJson(ErrorReport(STANDARD_EXCEPTION + what)))
      else Escapes
    case Unknown => Responds(INTERNAL_SERVER_ERROR, p.dumpJson(ErrorReport(UNKNOWN_EXCEPTION)))
  }

  predicate IsIntercepted(q: Request) {
    q.target == "/favicon.ico" || q.target == "/robots.txt"
  }

  /** The call that gets `events[k]`, all before it having returned, throws. */
  predicate ThrowsAt(throws: Behaviour, before: seq<CloudEvent>, events: seq<CloudEvent>, k: nat)
    requires k < |events|
  {
    throws(before + events[..k], events[k]).Some?
  }

  /** How many of the events the function is called with: up to the first call that throws. */
  function Attempts(throws: Behaviour, before: seq<CloudEvent>, events: seq<CloudEvent>): (n: nat)
    ensures n <= |events|
    ensures events != [] ==> n > 0
    ensures forall k :: 0 <= k < n - 1 ==> !ThrowsAt(throws, before, events, k)
    ensures n < |events| ==> n > 0 && ThrowsAt(throws, before, events, n - 1)
    decreases |events|
  {
    if events == [] then 0
    else
      var last := |events| - 1;
      var most := Attempts(throws, before, events[..last]);
      assert forall k :: 0 <= k < last ==> events[..last][..k] == events[..k];
      assert forall k :: 0 <= k < last ==>
               (ThrowsAt(throws, before, events[..last], k) <==> ThrowsAt(throws, before, events, k));
      if most < last || (most > 0 && ThrowsAt(throws, before, events, most - 1)) then most
      else most + 1
  }

  /** No call throws. */
  predicate Completes(throws: Behaviour, before: seq<CloudEvent>, events: seq<CloudEvent>) {
    forall k :: 0 <= k < |events| ==> !ThrowsAt(throws, before, events, k)
  }

  /** What the last call that is made throws. */
  function LastThrown(throws: Behaviour, before: seq<CloudEvent>, events: seq<CloudEvent>)
    : Option<Exception>
  {
    var n := Attempts(throws, before, events);
    if n == 0 then None else throws(before + events[..n - 1], events[n - 1])
  }

  /** The exception that a request raises, in parsing or in a call. */
  function Raised(p: Platform, throws: Behaviour, before: seq<CloudEvent>, q: Request)
    : Option<Exception>
  {
    if IsIntercepted(q) then None
    else
      match ReadHttp(p, q)
      case Thrown(what) => Some(Standard(what))
      case Ok(events) => LastThrown(throws, before, events)
  }

  function OutcomeOf(p: Platform, throws: Behaviour, before: seq<CloudEvent>, q: Request): Outcome {
    if IsIntercepted(q) then Responds(NOT_FOUND, "")
    else
      match Raised(p, throws, before, q)
      case None => Responds(OK, "")
      case Some(ex) => Reported(p, ex)
  }

  /** The events that the function gets from a request. */
  function Calls(p: Platform, throws: Behaviour, before: seq<CloudEvent>, q: Request)
    : seq<CloudEvent>
  {
    if IsIntercepted(q) then []
    else
      match ReadHttp(p, q)
      case Thrown(_) => []
      case Ok(events) => events[..Attempts(throws, before, events)]
  }

  /** The handler of a CloudEvent function: the exceptions of parsing and of the calls end it. */
  method CallUserFunction(p: Platform, user: UserFunction, q: Request) returns (outcome: Outcome)
    modifies user
    ensures outcome == OutcomeOf(p, user.throws, old(user.calls), q)
    ensures user.calls == old(user.calls) + Calls(p, user.throws, old(user.calls), q)
  {
    hide ReadHttp, Reported;
    ghost var before := user.calls;
    if q.target == "/favicon.ico" || q.target == "/robots.txt" { return Responds(NOT_FOUND, ""); }
    var parsed := ParseCloudEventHttp(p, q);
    if parsed.Thrown? {
      return Reported(p, Standard(parsed.what));
    }
    var events := parsed.value;
    for i := 0 to |events|
      invariant user.calls == before + events[..i]
      invariant forall k :: 0 <= k < i ==> !ThrowsAt(user.throws, before, events, k)
    {
      var thrown := user.Call(events[i]);
      assert before + events[..i] + [events[i]] == before + events[..i + 1];
      if thrown.Some? {
        assert ThrowsAt(user.throws, before, events, i);
        FirstThrow(user.throws, before, events, i);
        return Reported(p, thrown.value);
      }
    }
    NoThrow(user.throws, before, events);
    assert events[..|events|] == events;
    return Responds(OK, "");
  }

  lemma FirstThrow(throws: Behaviour, before: seq<CloudEvent>, events: seq<CloudEvent>, i: nat)
    requires i < |events| && ThrowsAt(throws, before, events, i)
    requires forall k :: 0 <= k < i ==> !ThrowsAt(throws, before, events, k)
    ensures Attempts(throws, before, events) == i + 1
  {
  }

  lemma NoThrow(throws: Behaviour, before: seq<CloudEvent>, events: seq<CloudEvent>)
    requires Completes(throws, before, events)
    ensures Attempts(throws, before, events) == |events|
    ensures LastThrown(throws, before, events).None?
  {
    var n := Attempts(throws, before, events);
    assert n > 0 ==> !ThrowsAt(throws, before, events, n - 1);
  }

  /** The last call throws exactly if some call would, all before it having returned. */
  lemma ThrownOrComplete(throws: Behaviour, before: seq<CloudEvent>, events: seq<CloudEvent>)
    ensures LastThrown(throws, before, events).None? <==> Completes(throws, before, events)
    ensures LastThrown(throws, before, events).Some? ==>
              var k := Attempts(throws, before, events) - 1;
              ThrowsAt(throws, before, events, k)
              && LastThrown(throws, before, events) == throws(before + events[..k], events[k])
  {
    if Completes(throws, before, events) {
      NoThrow(throws, before, events);
    }
    var n := Attempts(throws, before, events);
    assert n > 0 && LastThrown(throws, before, events).None? ==> !ThrowsAt(throws, before, events, n - 1);
  }

  /** The function gets an in-order prefix of the events, and all of them unless it throws. */
  lemma DeliveryIsAPrefix(p: Platform, throws: Behaviour, before: seq<CloudEvent>, q: Request,
                          events: seq<CloudEvent>)
    requires !IsIntercepted(q) && ReadHttp(p, q) == Ok(events)
    ensures Calls(p, throws, before, q) <= events
    ensures Raised(p, throws, before, q).None? <==>
            && Calls(p, throws, before, q) == events
            && (events != [] ==> !ThrowsAt(throws, before, events, |events| - 1))
    ensures Raised(p, throws, before, q).None? <==> Completes(throws, before, events)
  {
    hide ReadHttp;
    ThrownOrComplete(throws, before, events);
    var n := Attempts(throws, before, events);
    assert |events[..n]| == n;
    if n == |events| {
      assert events[..n] == events;
    }
  }

  /** The text of an exception makes its report fail. */
  predicate IsUnreportable(p: Platform, raised: Option<Exception>) {
    raised.Some? && raised.value.Standard? && !p.validUtf8(STANDARD_EXCEPTION + raised.value.what)
  }

  /**
   * What the caller gets, exactly: not found for the intercepted targets only; otherwise success
   * if nothing was raised, an error if its text can be reported, and an exception if it cannot.
   */
  lemma OutcomeIsExact(p: Platform, throws: Behaviour, before: seq<CloudEvent>, q: Request)
    ensures var outcome, raised := OutcomeOf(p, throws, before, q), Raised(p, throws, before, q);
            && (outcome.Escapes? <==> IsUnreportable(p, raised))
            && (outcome.Responds? && outcome.status == INTERNAL_SERVER_ERROR <==>
                  raised.Some? && !IsUnreportable(p, raised))
            && (outcome.Responds? && outcome.status == OK <==> !IsIntercepted(q) && raised.None?)
            && (outcome.Responds? && outcome.status == NOT_FOUND <==>
                  q.target == "/favicon.ico" || q.target == "/robots.txt")
  {
    hide ReadHttp, LastThrown;
  }

  /** One bad element, and nothing of a batch is delivered. */
  lemma BadElementStopsTheBatch(p: Platform, throws: Behaviour, before: seq<CloudEvent>, q: Request,
                                items: seq<Json>, bad: nat)
    requires !IsIntercepted(q) && HasContentType(q, BATCH)
    requires p.parseJson(q.body) == Ok(Arr(items))
    requires bad < |items| && JsonEvents.ReadValue(p, items[bad]).Thrown?
    ensures Calls(p, throws, before, q) == []
    ensures exists i :: 0 <= i <= bad && JsonEvents.ReadValue(p, items[i]).Thrown?
                        && Raised(p, throws, before, q) ==
                           Some(Standard(JsonEvents.ReadValue(p, items[i]).what))
  {
    hide JsonEvents.ReadValue, JsonEvents.ReadValues;
    var i := JsonEvents.FirstBadElement(p, items, bad);
  }

  /** A structured body that the JSON reader rejects with an unreportable text gets no response. */
  lemma BadBytesEscape(p: Platform, throws: Behaviour, before: seq<CloudEvent>, q: Request,
                       what: string)
    requires !IsIntercepted(q) && HasContentType(q, STRUCTURED)
    requires p.parseJson(q.body) == Thrown(what) && !p.validUtf8(STANDARD_EXCEPTION + what)
    ensures OutcomeOf(p, throws, before, q) == Escapes && Calls(p, throws, before, q) == []
  {
    StructuredIsNotBatch(q);
    assert ReadHttp(p, q) == Thrown(what);
  }

  /** The transport of a message does not show in what the function sees or what it answers. */
  lemma TransportDoesNotShow(p: Platform, throws: Behaviour, before: seq<CloudEvent>,
                             q: Request, s: Request, j: Json, m: Message)
    requires IsBinaryFormOf(q, m) && !IsReserved(q) && HasContentType(s, STRUCTURED)
    requires p.parseJson(s.body) == Ok(j) && JsonEvents.IsFormOf(p, j, m)
    requires q.target == s.target
    ensures OutcomeOf(p, throws, before, q) == OutcomeOf(p, throws, before, s)
    ensures Calls(p, throws, before, q) == Calls(p, throws, before, s)
  {
    hide ReadHttp, IsBinaryFormOf, JsonEvents.IsFormOf, IsReserved, HasContentType, Attempts,
         LastThrown;
    TransportEquivalence(p, q, s, j, m);
  }

  /** A request that cannot be read raises the error of reading it, and is not delivered. */
  lemma UnreadableIsRaised(p: Platform, throws: Behaviour, before: seq<CloudEvent>, q: Request)
    requires q.target != "/favicon.ico" && q.target != "/robots.txt" && ReadHttp(p, q).Thrown?
    ensures Raised(p, throws, before, q) == Some(Standard(ReadHttp(p, q).what))
    ensures Calls(p, throws, before, q) == []
  {
    hide ReadHttp;
  }

  /** The first call that throws is the last one, and what it throws is raised. */
  lemma FirstBadCallIsRaised(p: Platform, throws: Behaviour, before: seq<CloudEvent>, q: Request,
                             events: seq<CloudEvent>, k: nat)
    requires q.target != "/favicon.ico" && q.target != "/robots.txt" && ReadHttp(p, q) == Ok(events)
    requires k < |events| && throws(before + events[..k], events[k]).Some?
    requires forall i :: 0 <= i < k ==> throws(before + events[..i], events[i]).None?
    ensures Raised(p, throws, before, q) == throws(before + events[..k], events[k])
    ensures Calls(p, throws, before, q) == events[..k + 1]
  {
    hide ReadHttp;
    assert forall i :: 0 <= i < k ==> !ThrowsAt(throws, before, events, i);
    assert ThrowsAt(throws, before, events, k);
    hide ThrowsAt;
    FirstThrow(throws, before, events, k);
  }

  /** The report of an exception is an object with its severity and its text. */
  lemma ReportIsExact(p: Platform, what: string)
    requires p.validUtf8("standard C++ exception thrown by the function: " + what)
    ensures Reported(p, Standard(what)) ==
            Responds(500, p.dumpJson(
              Obj(map["severity" := Str("error"),
                      "message" := Str("standard C++ exception thrown by the function: " + what)])))
  {
  }
}
