/**
 * Events in HTTP requests (CloudEvents HTTP Protocol Binding 1.0, sections 3.1 to 3.3): binary
 * mode, structured mode, batches, and the legacy formats.
 */
module HttpEvents {
  import opened Wrappers
  import opened Text
  import opened JsonValues
  import opened CloudEvents
  import JsonEvents
  import LegacyEvents
  import StorageEvents
  import Base64

  /** A request. Header names are in lower case, since HTTP does not distinguish case. */
  datatype Request = Request(target: string, headers: map<string, string>, body: string)

  predicate HasHeader(q: Request, header: string) {
    header in q.headers
  }

  const MINIMAL_HEADERS: seq<string> := ["ce-id", "ce-source", "ce-type"]

  predicate HasMinimalCloudEventHeaders(q: Request)
    ensures HasMinimalCloudEventHeaders(q) <==>
              "ce-id" in q.headers && "ce-source" in q.headers && "ce-type" in q.headers
  {
    var all := forall i :: 0 <= i < |MINIMAL_HEADERS| ==> HasHeader(q, MINIMAL_HEADERS[i]);
    assert all ==> HasHeader(q, MINIMAL_HEADERS[0]) && HasHeader(q, MINIMAL_HEADERS[1])
                   && HasHeader(q, MINIMAL_HEADERS[2]);
    all
  }

  // Binary mode

  /** The request sends the optional attribute in a header. */
  predicate Sends(q: Request, header: string, value: Option<string>) {
    Holds(q.headers, header, value)
  }

  /** The content type is in one of two headers, or in both if they agree. */
  predicate SendsContentType(q: Request, value: Option<string>) {
    match value
    case None => Sends(q, "content-type", None) && Sends(q, "ce-datacontenttype", None)
    case Some(_) =>
      && (HasHeader(q, "content-type") || HasHeader(q, "ce-datacontenttype"))
      && (HasHeader(q, "content-type") ==> Sends(q, "content-type", value))
      && (HasHeader(q, "ce-datacontenttype") ==> Sends(q, "ce-datacontenttype", value))
  }

  /** The payload is the body, if the request says how long it is. */
  predicate SendsData(q: Request, data: Option<string>) {
    data == if HasHeader(q, "content-length") then Some(q.body) else None
  }

  /** The request is a binary-mode form of message `m`. */
  predicate IsBinaryFormOf(q: Request, m: Message) {
    && Sends(q, "ce-id", Some(m.id))
    && Sends(q, "ce-source", Some(m.source))
    && Sends(q, "ce-type", Some(m.ceType))
    && Sends(q, "ce-specversion", m.specVersion)
    && SendsContentType(q, m.dataContentType)
    && Sends(q, "ce-dataschema", m.dataSchema)
    && Sends(q, "ce-subject", m.subject)
    && Sends(q, "ce-time", m.time)
    && SendsData(q, m.data)
  }

  function Header(q: Request, header: string): Option<string> {
    if HasHeader(q, header) then Some(q.headers[header]) else None
  }

  /** The text of the error of `at`; it is a constant. */
  const MISSING_HEADER := "field not found"
  const MISMATCH := "Mismatched ce-datacontentype and Content-Type header values"

  /** The message that a request is a binary-mode form of, if there is one. */
  function BinaryMessage(q: Request): Result<Message> {
    if !HasMinimalCloudEventHeaders(q) then Thrown(MISSING_HEADER)
    else if HasHeader(q, "content-type") && HasHeader(q, "ce-datacontenttype")
            && q.headers["content-type"] != q.headers["ce-datacontenttype"] then Thrown(MISMATCH)
    else
      var contentType :=
        if HasHeader(q, "content-type") then Header(q, "content-type")
        else Header(q, "ce-datacontenttype");
      Ok(Message(q.headers["ce-id"], q.headers["ce-source"], q.headers["ce-type"],
                 Header(q, "ce-specversion"), contentType, Header(q, "ce-dataschema"),
                 Header(q, "ce-subject"), Header(q, "ce-time"),
                 if HasHeader(q, "content-length") then Some(q.body) else None))
  }

  /** Reading finds a message exactly when the request is a binary-mode form of it. */
  lemma ReadsExactlyBinaryForms(q: Request, m: Message)
    ensures IsBinaryFormOf(q, m) <==> BinaryMessage(q) == Ok(m)
  {
  }

  function ReadBinary(p: Platform, q: Request): Result<CloudEvent> {
    var m :- BinaryMessage(q);
    Meaning(p, m)
  }

  /** The event has the text of the header, or nothing if the header is not there. */
  predicate IsFrom(q: Request, header: string, value: Option<string>) {
    if header in q.headers then value == Some(q.headers[header]) else value == None
  }

  /** Each attribute of `e` is that of the header with its name. */
  predicate IsToldByHeaders(p: Platform, q: Request, e: CloudEvent) {
    var h := q.headers;
    && "ce-id" in h && e.id == h["ce-id"]
    && "ce-source" in h && e.source == h["ce-source"]
    && "ce-type" in h && e.ceType == h["ce-type"]
    && e.specVersion == (if "ce-specversion" in h then h["ce-specversion"] else "1.0")
    && ("content-type" in h ==> e.dataContentType == Some(h["content-type"]))
    && ("ce-datacontenttype" in h ==> e.dataContentType == Some(h["ce-datacontenttype"]))
    && ("content-type" !in h && "ce-datacontenttype" !in h ==> e.dataContentType == None)
    && IsFrom(q, "ce-dataschema", e.dataSchema)
    && IsFrom(q, "ce-subject", e.subject)
    && (if "ce-time" in h then e.time.Some? && p.parseTime(h["ce-time"]) == Ok(e.time.value)
        else e.time == None)
    && e.data == (if "content-length" in h then Some(q.body) else None)
  }

  /** A request is read as exactly the event that its headers tell. */
  lemma BinaryIsTold(p: Platform, q: Request, e: CloudEvent)
    ensures ReadBinary(p, q) == Ok(e) <==> IsToldByHeaders(p, q, e)
  {
  }

  method ParseCloudEventHttpBinary(p: Platform, q: Request) returns (r: Result<CloudEvent>)
    ensures r == ReadBinary(p, q)
    ensures r.Ok? ==> IsToldByHeaders(p, q, r.value)
  {
    hide IsToldByHeaders;
    var specVersion := DEFAULT_SPEC_VERSION;
    if HasHeader(q, "ce-specversion") {
      specVersion := q.headers["ce-specversion"];
    }
    if !HasMinimalCloudEventHeaders(q) { return Thrown(MISSING_HEADER); }
    var event := NewEvent(q.headers["ce-id"], q.headers["ce-source"], q.headers["ce-type"],
                          specVersion);
    if HasHeader(q, "ce-datacontenttype") {
      if HasHeader(q, "content-type")
         && q.headers["ce-datacontenttype"] != q.headers["content-type"] {
        return Thrown(MISMATCH);
      }
      event := event.(dataContentType := Some(q.headers["ce-datacontenttype"]));
    } else if HasHeader(q, "content-type") {
      event := event.(dataContentType := Some(q.headers["content-type"]));
    }
    if HasHeader(q, "ce-dataschema") {
      event := event.(dataSchema := Some(q.headers["ce-dataschema"]));
    }
    if HasHeader(q, "ce-subject") {
      event := event.(subject := Some(q.headers["ce-subject"]));
    }
    if HasHeader(q, "ce-time") {
      var time :- p.parseTime(q.headers["ce-time"]);
      event := event.(time := Some(time));
    }
    if HasHeader(q, "content-length") {
      event := event.(data := Some(q.body));
    }
    BinaryIsTold(p, q, event);
    return Ok(event);
  }

  /** A request without the headers of an event, and without JSON content, is an error. */
  lemma UnidentifiedIsError(p: Platform, q: Request)
    requires !("ce-id" in q.headers && "ce-source" in q.headers && "ce-type" in q.headers)
    requires "content-type" in q.headers ==>
               && !StartsWith(q.headers["content-type"], "application/cloudevents-batch+json")
               && !StartsWith(q.headers["content-type"], "application/cloudevents+json")
               && !StartsWith(q.headers["content-type"], "application/json")
    ensures ReadHttp(p, q).Thrown?
  {
    hide StartsWith;
  }

  // Routing

  const BATCH := "application/cloudevents-batch+json"
  const STRUCTURED := "application/cloudevents+json"
  const PLAIN_JSON := "application/json"

  datatype Route = Batch | Structured | Legacy | Binary

  predicate HasContentType(q: Request, prefix: string) {
    HasHeader(q, "content-type") && StartsWith(q.headers["content-type"], prefix)
  }

  /** The content type claims the whole body for the event format. */
  predicate IsReservedType(contentType: string) {
    StartsWith(contentType, BATCH) || StartsWith(contentType, STRUCTURED)
  }

  predicate IsReserved(q: Request) {
    HasHeader(q, "content-type") && IsReservedType(q.headers["content-type"])
  }

  function RouteOf(q: Request): Route {
    if HasContentType(q, BATCH) then Batch
    else if HasContentType(q, STRUCTURED) then Structured
    else if HasContentType(q, PLAIN_JSON) && !HasMinimalCloudEventHeaders(q) then Legacy
    else Binary
  }

  function Single(r: Result<CloudEvent>): Result<seq<CloudEvent>> {
    var e :- r;
    Ok([e])
  }

  function Unwrapped(p: Platform, r: Result<CloudEvent>): Result<CloudEvent> {
    var e :- r;
    StorageEvents.Rewritten(p, e)
  }

  /** The events in a request. */
  function ReadHttp(p: Platform, q: Request): Result<seq<CloudEvent>> {
    match RouteOf(q)
    case Batch => JsonEvents.ReadBatch(p, q.body)
    case Structured => Single(JsonEvents.ReadText(p, q.body))
    case Legacy => Single(LegacyEvents.ReadLegacyText(p, q.body))
    case Binary => Single(Unwrapped(p, ReadBinary(p, q)))
  }

  method ParseCloudEventHttp(p: Platform, q: Request) returns (r: Result<seq<CloudEvent>>)
    ensures r == ReadHttp(p, q)
  {
    hide ReadBinary, StorageEvents.Rewritten, JsonEvents.ReadBatch, JsonEvents.ReadText,
         LegacyEvents.ReadLegacyText, StartsWith;
    if HasHeader(q, "content-type") {
      var contentType := q.headers["content-type"];
      if StartsWith(contentType, BATCH) {
        r := JsonEvents.ParseCloudEventJsonBatch(p, q.body);
        return;
      }
      if StartsWith(contentType, STRUCTURED) {
        var event :- JsonEvents.ParseCloudEventJson(p, q.body);
        return Ok([event]);
      }
      if StartsWith(contentType, PLAIN_JSON) && !HasMinimalCloudEventHeaders(q) {
        var event :- LegacyEvents.ParseCloudEventLegacy(p, q.body);
        return Ok([event]);
      }
    }
    var event :- ParseCloudEventHttpBinary(p, q);
    event :- StorageEvents.ParseCloudEventStorage(p, event);
    return Ok([event]);
  }

  lemma StructuredIsNotBatch(q: Request)
    requires HasContentType(q, STRUCTURED)
    ensures RouteOf(q) == Structured
  {
    DifferAt(STRUCTURED, BATCH, 23);
    if HasContentType(q, BATCH) {
      PrefixesNest(STRUCTURED, BATCH, q.headers["content-type"]);
    }
  }

  // The transports agree

  /** What is delivered for a message that is sent alone, by whatever transport. */
  function Delivered(p: Platform, m: Message): Result<seq<CloudEvent>> {
    Single(Unwrapped(p, Meaning(p, m)))
  }

  lemma BinaryDelivers(p: Platform, q: Request, m: Message)
    requires IsBinaryFormOf(q, m) && !IsReserved(q)
    ensures ReadHttp(p, q) == Delivered(p, m)
  {
    hide StorageEvents.Rewritten, Meaning, StartsWith;
    ReadsExactlyBinaryForms(q, m);
  }

  lemma StructuredDelivers(p: Platform, s: Request, j: Json, m: Message)
    requires HasContentType(s, STRUCTURED)
    requires p.parseJson(s.body) == Ok(j) && JsonEvents.IsFormOf(p, j, m)
    ensures ReadHttp(p, s) == Delivered(p, m)
  {
    hide StorageEvents.Rewritten, Meaning, JsonEvents.MessageOf, JsonEvents.IsFormOf;
    StructuredIsNotBatch(s);
    JsonEvents.ReadsExactlyForms(p, j, m);
    JsonEvents.FormIsMeant(p, j, m);
    hide JsonEvents.ReadValue;
  }

  /**
   * The binary and the structured form of a message are read alike, whatever carries the payload
   * in the structured form: both give the one unwrapped event, or both fail.
   */
  lemma TransportEquivalence(p: Platform, q: Request, s: Request, j: Json, m: Message)
    requires IsBinaryFormOf(q, m) && !IsReserved(q)
    requires HasContentType(s, STRUCTURED)
    requires p.parseJson(s.body) == Ok(j) && JsonEvents.IsFormOf(p, j, m)
    ensures ReadHttp(p, q) == ReadHttp(p, s) == Delivered(p, m)
  {
    BinaryDelivers(p, q, m);
    StructuredDelivers(p, s, j, m);
  }

  /** A storage notification is delivered as the storage event for the object data it wraps. */
  lemma NotificationIsUnwrapped(p: Platform, q: Request, m: Message, e: CloudEvent, payload: Json,
                                n: StorageEvents.Notice, bytes: string, dropped: nat)
    requires IsBinaryFormOf(q, m) && !IsReserved(q) && Meaning(p, m) == Ok(e)
    requires StorageEvents.IsCandidate(e) && e.data.Some? && p.parseJson(e.data.value) == Ok(payload)
    requires StorageEvents.Carries(payload, n) && Base64.IsBytes(bytes)
    requires dropped <= Base64.TrailingPads(Base64.Encoded(bytes))
    requires n.data == Base64.Encoded(bytes)[..|Base64.Encoded(bytes)| - dropped]
    ensures ReadHttp(p, q) == Ok([StorageEvents.StorageEvent(e, n, bytes)])
  {
    hide Meaning, Base64.Encoded, StorageEvents.Rewritten, StorageEvents.Carries, IsBinaryFormOf,
         ReadHttp, IsReserved, StorageEvents.StorageEvent;
    BinaryDelivers(p, q, m);
    StorageEvents.RewriteInvertsWrapping(p, e, payload, n, bytes, dropped);
  }

  /** A binary request that is read at all has structured forms, and they are read alike. */
  lemma BinaryHasStructuredForms(p: Platform, q: Request, m: Message, s: Request,
                                 c: JsonEvents.Carrier)
    requires BinaryMessage(q) == Ok(m) && !IsReserved(q)
    requires JsonEvents.Carried(p, c) == Ok(m.data)
    requires HasContentType(s, STRUCTURED)
    requires p.parseJson(s.body) == Ok(JsonEvents.FormOf(m, c))
    ensures ReadHttp(p, q) == ReadHttp(p, s)
  {
    ReadsExactlyBinaryForms(q, m);
    JsonEvents.FormIsRead(p, m, c);
    JsonEvents.ReadsExactlyForms(p, JsonEvents.FormOf(m, c), m);
    TransportEquivalence(p, q, s, JsonEvents.FormOf(m, c), m);
  }

  function BinaryAttributes(m: Message): seq<(string, Option<string>)> {
    [("ce-id", Some(m.id)), ("ce-source", Some(m.source)), ("ce-type", Some(m.ceType)),
     ("ce-specversion", m.specVersion), ("content-type", m.dataContentType),
     ("ce-dataschema", m.dataSchema), ("ce-subject", m.subject), ("ce-time", m.time)]
  }

  /** The binary-mode request for a message; `length` is the decimal length of the body. */
  function BinaryOf(m: Message, target: string, length: string): Request {
    if m.data.None? then Request(target, Fields(BinaryAttributes(m)), "")
    else Request(target, Fields(BinaryAttributes(m))["content-length" := length], m.data.value)
  }

  /** The headers carry every attribute, and the content type once. */
  ghost predicate CarryAttributes(h: map<string, string>, m: Message) {
    && Holds(h, "ce-id", Some(m.id)) && Holds(h, "ce-source", Some(m.source))
    && Holds(h, "ce-type", Some(m.ceType)) && Holds(h, "ce-specversion", m.specVersion)
    && Holds(h, "content-type", m.dataContentType) && Holds(h, "ce-datacontenttype", None)
    && Holds(h, "ce-dataschema", m.dataSchema) && Holds(h, "ce-subject", m.subject)
    && Holds(h, "ce-time", m.time)
  }

  lemma AttributeIsSent(m: Message, i: nat)
    requires i < |BinaryAttributes(m)|
    ensures Holds(Fields(BinaryAttributes(m)), BinaryAttributes(m)[i].0, BinaryAttributes(m)[i].1)
    ensures Holds(Fields(BinaryAttributes(m)), "ce-datacontenttype", None)
    ensures Holds(Fields(BinaryAttributes(m)), "content-length", None)
  {
    FieldsHold(BinaryAttributes(m), i);
    OnlyNamed(BinaryAttributes(m), "ce-datacontenttype");
    OnlyNamed(BinaryAttributes(m), "content-length");
  }

  lemma AttributesAreSent(m: Message)
    ensures CarryAttributes(Fields(BinaryAttributes(m)), m)
    ensures Holds(Fields(BinaryAttributes(m)), "content-length", None)
  {
    hide Fields, Holds;
    AttributeIsSent(m, 0);
    AttributeIsSent(m, 1);
    AttributeIsSent(m, 2);
    AttributeIsSent(m, 3);
    AttributeIsSent(m, 4);
    AttributeIsSent(m, 5);
    AttributeIsSent(m, 6);
    AttributeIsSent(m, 7);
  }

  lemma FormOfHeaders(q: Request, m: Message)
    requires CarryAttributes(q.headers, m) && SendsData(q, m.data)
    ensures IsBinaryFormOf(q, m)
  {
  }

  /** The rendering is a binary-mode form. */
  lemma BinaryOfIsForm(m: Message, target: string, length: string)
    ensures IsBinaryFormOf(BinaryOf(m, target, length), m)
  {
    hide Fields, BinaryAttributes, Holds, IsBinaryFormOf, SendsData;
    AttributesAreSent(m);
    LengthIsSent(Fields(BinaryAttributes(m)), m.data, target, length);
    FormOfHeaders(BinaryOf(m, target, length), m);
  }

  lemma LengthIsSent(headers: map<string, string>, data: Option<string>, target: string,
                     length: string)
    requires Holds(headers, "content-length", None)
    ensures data.None? ==> SendsData(Request(target, headers, ""), data)
    ensures data.Some? ==>
              SendsData(Request(target, headers["content-length" := length], data.value), data)
    ensures forall h, v :: h != "content-length" ==>
              (Holds(headers["content-length" := length], h, v) <==> Holds(headers, h, v))
  {
  }

  /** A structured request has a binary form; they are read alike unless its type is reserved. */
  lemma StructuredHasBinaryForm(p: Platform, s: Request, j: Json, m: Message, length: string)
    requires HasContentType(s, STRUCTURED)
    requires p.parseJson(s.body) == Ok(j) && JsonEvents.MessageOf(p, j) == Ok(m)
    requires m.dataContentType.Some? ==> !IsReservedType(m.dataContentType.value)
    ensures ReadHttp(p, BinaryOf(m, s.target, length)) == ReadHttp(p, s)
  {
    var q := BinaryOf(m, s.target, length);
    BinaryOfIsForm(m, s.target, length);
    JsonEvents.ReadsExactlyForms(p, j, m);
    hide BinaryOf, StartsWith, JsonEvents.MessageOf;
    assert HasHeader(q, "content-type") ==> m.dataContentType == Some(q.headers["content-type"]);
    assert !IsReserved(q);
    TransportEquivalence(p, q, s, j, m);
  }

  /** With a reserved content type the attributes in the headers are not looked at. */
  lemma ReservedTypeHidesHeaders(p: Platform, q: Request, q': Request)
    requires IsReserved(q) && q.body == q'.body
    requires HasHeader(q', "content-type") && q.headers["content-type"] == q'.headers["content-type"]
    ensures ReadHttp(p, q) == ReadHttp(p, q')
  {
  }

  /** So the restriction is needed: here is a message of any reserved type whose binary form fails. */
  lemma ReservedTypeBreaksEquivalence(p: Platform, contentType: string, id: string, source: string,
                                      ceType: string, text: string, target: string, length: string)
    requires IsReservedType(contentType)
    requires p.parseJson(text) == Ok(Null) && ceType != StorageEvents.PUBSUB_TYPE
    ensures var m := Message(id, source, ceType, None, Some(contentType), None, None, None, Some(text));
            && Delivered(p, m).Ok?
            && IsBinaryFormOf(BinaryOf(m, target, length), m)
            && ReadHttp(p, BinaryOf(m, target, length)).Thrown?
  {
    var m := Message(id, source, ceType, None, Some(contentType), None, None, None, Some(text));
    var q := BinaryOf(m, target, length);
    BinaryOfIsForm(m, target, length);
    AttributeIsSent(m, 4);
    hide Fields, IsBinaryFormOf, StartsWith;
    assert q.headers["content-type"] == contentType;
    assert IsReserved(q);
    assert JsonEvents.ReadText(p, text).Thrown? && JsonEvents.ReadBatch(p, text).Thrown?;
  }

  /** Every binary form of every message of this content type delivers what the message means. */
  ghost predicate BinaryFormsDeliver(p: Platform, contentType: string) {
    forall q, m :: IsBinaryFormOf(q, m) && m.dataContentType == Some(contentType) ==>
                     ReadHttp(p, q) == Delivered(p, m)
  }

  /** Which content types binary mode is good for: exactly those that are not reserved. */
  lemma BinaryModeNeedsUnreservedType(p: Platform, contentType: string, text: string)
    requires p.parseJson(text) == Ok(Null)
    ensures BinaryFormsDeliver(p, contentType) <==> !IsReservedType(contentType)
  {
    hide ReadHttp, Delivered, StartsWith, Fields;
    if IsReservedType(contentType) {
      ReservedTypeBreaksEquivalence(p, contentType, "", "", "", text, "", "");
    } else {
      forall q, m | IsBinaryFormOf(q, m) && m.dataContentType == Some(contentType)
        ensures ReadHttp(p, q) == Delivered(p, m)
      {
        BinaryDelivers(p, q, m);
      }
    }
  }

  // Batches and legacy events are not unwrapped

  /** A batch of forms is read to the events that the messages mean, in order and as they are. */
  lemma BatchDelivers(p: Platform, q: Request, items: seq<Json>, messages: seq<Message>,
                      events: seq<CloudEvent>)
    requires HasContentType(q, BATCH) && p.parseJson(q.body) == Ok(Arr(items))
    requires |items| == |messages|
    requires forall i :: 0 <= i < |items| ==> JsonEvents.IsFormOf(p, items[i], messages[i])
    ensures ReadHttp(p, q) == Ok(events) <==>
            && |events| == |messages|
            && forall i :: 0 <= i < |messages| ==> Meaning(p, messages[i]) == Ok(events[i])
  {
    hide Meaning, JsonEvents.MessageOf, JsonEvents.IsFormOf, StartsWith, JsonEvents.ReadValues;
    JsonEvents.ReadsElementwise(p, items, events);
    forall i | 0 <= i < |items|
      ensures JsonEvents.ReadValue(p, items[i]) == Meaning(p, messages[i])
    {
      JsonEvents.ReadsExactlyForms(p, items[i], messages[i]);
      JsonEvents.FormIsMeant(p, items[i], messages[i]);
    }
  }

  /** A message is delivered alike in a batch of one and alone exactly when unwrapping keeps it. */
  lemma BatchOfOneDiffers(p: Platform, q: Request, s: Request, j: Json, m: Message, e: CloudEvent)
    requires HasContentType(q, BATCH) && p.parseJson(q.body) == Ok(Arr([j]))
    requires HasContentType(s, STRUCTURED) && p.parseJson(s.body) == Ok(j)
    requires JsonEvents.IsFormOf(p, j, m) && Meaning(p, m) == Ok(e)
    ensures ReadHttp(p, q) == Ok([e])
    ensures ReadHttp(p, q) == ReadHttp(p, s) <==> StorageEvents.Rewritten(p, e) == Ok(e)
  {
    hide Meaning, StorageEvents.Rewritten, JsonEvents.IsFormOf, ReadHttp, StartsWith;
    BatchDelivers(p, q, [j], [m], [e]);
    StructuredDelivers(p, s, j, m);
  }

  /** A legacy event is delivered as it was read. */
  lemma LegacyDelivers(p: Platform, q: Request, j: Json)
    requires HasContentType(q, PLAIN_JSON) && !HasMinimalCloudEventHeaders(q)
    requires p.parseJson(q.body) == Ok(j)
    ensures ReadHttp(p, q) == Single(LegacyEvents.ReadLegacy(p, j))
  {
    hide LegacyEvents.ReadLegacy;
    DifferAt(PLAIN_JSON, BATCH, 12);
    DifferAt(PLAIN_JSON, STRUCTURED, 12);
    var contentType := q.headers["content-type"];
    if StartsWith(contentType, BATCH) {
      PrefixesNest(PLAIN_JSON, BATCH, contentType);
    }
    if StartsWith(contentType, STRUCTURED) {
      PrefixesNest(PLAIN_JSON, STRUCTURED, contentType);
    }
  }
}
