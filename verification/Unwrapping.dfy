/**
 * Where storage notifications stay wrapped. Single events are unwrapped; batch elements and legacy
 * events are not. Here is when that shows, and a notification for each case.
 */
module Unwrapping {
  import opened Wrappers
  import opened JsonValues
  import opened CloudEvents
  import opened StorageEvents
  import opened HttpEvents
  import opened LegacyTypes
  import opened LegacyFields
  import opened LegacyEvents
  import Base64
  import JsonEvents

  /** The request is read as a legacy event. */
  predicate IsLegacy(q: Request) {
    HasContentType(q, PLAIN_JSON) && !HasMinimalCloudEventHeaders(q)
  }

  /** What a legacy event would be unwrapped from, as the JSON value of the request has it. */
  function Wrapped(json: Json, service: string): Json
    requires json.Obj?
  {
    var data := json.ValueOr("data", Null).value;
    match service
    case "pubsub.googleapis.com" => Obj(map["message" := data])
    case "storage.googleapis.com" => data
    case "firebasedatabase.googleapis.com" => data
    case "firebaseauth.googleapis.com" => data
    case "firestore.googleapis.com" => data
    case _ => json
  }

  /** Whether a payload is foreign depends on two keys of its message. */
  lemma SameMessage(a: Json, b: Json)
    requires a.Has("message") && b.Has("message")
    requires a.fields["message"].At("data") == b.fields["message"].At("data")
    requires a.fields["message"].At("attributes") == b.fields["message"].At("attributes")
    ensures IsForeign(a) <==> IsForeign(b)
  {
    hide HasAllAttributes;
  }

  lemma StampsDoNotShow(data: Json, gcf: Common)
    requires Stamped(data, Stamps(gcf)).Ok?
    ensures IsForeign(Obj(map["message" := Stamped(data, Stamps(gcf)).value])) <==>
            IsForeign(Obj(map["message" := data]))
  {
    StampedKeys(data, gcf);
    hide Stamped, Stamps, IsForeign;
    assert !IsStamped(gcf, "data") && !IsStamped(gcf, "attributes");
    SameMessage(Obj(map["message" := Stamped(data, Stamps(gcf)).value]), Obj(map["message" := data]));
  }

  lemma RenamesDoNotShow(data: Json)
    requires data.Has("metadata") && AuthData(data).Ok?
    ensures IsForeign(AuthData(data).value) <==> IsForeign(data)
  {
    var after := AuthData(data).value;
    assert after.Has("message") <==> data.Has("message");
    if data.Has("message") {
      SameMessage(after, data);
    }
  }

  /** The edits of the payload do not change whether it is foreign. */
  lemma EditsDoNotShow(json: Json, gcf: Common)
    requires json.Obj? && PayloadOf(json, gcf).Ok?
    ensures IsForeign(PayloadOf(json, gcf).value) <==> IsForeign(Wrapped(json, gcf.service))
  {
    hide IsForeign, AuthData, Stamped, Stamps;
    var data := json.ValueOr("data", Null).value;
    if gcf.service == "pubsub.googleapis.com" {
      StampsDoNotShow(data, gcf);
    } else if gcf.service == "firebaseauth.googleapis.com" {
      RenamesDoNotShow(data);
    }
  }

  /** A legacy event is a candidate exactly if its type is translated to that of Pub/Sub. */
  lemma LegacyCandidate(p: Platform, json: Json, gcf: Common, e: CloudEvent, payload: Json)
    requires json.Obj? && ServiceEvent(p, json, gcf) == Ok(e) && PayloadOf(json, gcf) == Ok(payload)
    ensures IsCandidate(e) <==> MapGCFTypeToCloudEventType(gcf.eventType) == Ok(PUBSUB_TYPE)
    ensures e.data == Some(p.dumpJson(payload))
  {
    LegacyContextIsKept(p, json, gcf, e);
    hide ServiceEvent, PayloadOf, MapGCFTypeToCloudEventType;
    var final, data := FinalFields(p, json, gcf);
    LegacyData(p, final, data, e);
  }

  lemma LegacyData(p: Platform, final: Common, data: Json, e: CloudEvent)
    requires LegacyEvent(p, final, data) == Ok(e)
    ensures e.data == Some(p.dumpJson(data))
  {
    hide MapGCFTypeToCloudEventType, ParsedTime;
  }

  /**
   * A legacy event is delivered as unwrapping would leave it, except exactly when its type is
   * translated to that of Pub/Sub and the JSON value has a notification (or a broken one).
   */
  lemma LegacyStaysWrapped(p: Platform, q: Request, json: Json, gcf: Common, e: CloudEvent,
                           payload: Json)
    requires IsLegacy(q) && p.parseJson(q.body) == Ok(json)
    requires ParseLegacyCommonFields(json) == Ok(gcf) && json.Obj? && ServiceEvent(p, json, gcf) == Ok(e)
    requires PayloadOf(json, gcf) == Ok(payload) && p.parseJson(p.dumpJson(payload)) == Ok(payload)
    ensures ReadHttp(p, q) == Ok([e])
    ensures ReadHttp(p, q) == Single(Unwrapped(p, Ok(e))) <==>
            MapGCFTypeToCloudEventType(gcf.eventType) != Ok(PUBSUB_TYPE)
            || IsForeign(Wrapped(json, gcf.service))
  {
    hide ServiceEvent, PayloadOf, MapGCFTypeToCloudEventType, ParseLegacyCommonFields, ReadHttp,
         StorageEvents.Rewritten, IsCandidate, IsForeign, Wrapped;
    LegacyDelivers(p, q, json);
    LegacyCandidate(p, json, gcf, e, payload);
    EditsDoNotShow(json, gcf);
    KeepsExactlyTheRest(p, e);
  }

  // The notifications

  /** A notification as a legacy event. */
  function LegacyNotification(n: Notice, config: string, generation: string, id: string,
                              resource: string): Json
    requires n.eventType in MESSAGE_TYPES
  {
    Obj(map["eventType" := Str(TOPIC_PUBLISH), "eventId" := Str(id), "resource" := Str(resource),
            "data" := Wrap(n, config, generation).fields["message"]])
  }

  lemma NothingInContext(json: Json, path: seq<string>)
    requires path != [] && path[0] == "context" && !json.Has("context")
    ensures !Given(json, path)
  {
    NamedFromFront(json, path);
  }

  lemma FieldWithoutContext(json: Json, path: seq<string>, alternative: string)
    requires path != [] && path[0] == "context" && json.Obj? && !json.Has("context")
    ensures json.Has(alternative) && json.fields[alternative].Str? ==>
              FieldIs(json, path, alternative, json.fields[alternative].s)
    ensures !json.Has(alternative) ==> FieldIs(json, path, alternative, "")
  {
    NothingInContext(json, path);
  }

  function PubSubCommon(id: string, resource: string): Common {
    var service := "pubsub.googleapis.com";
    Common(TOPIC_PUBLISH, service, id, resource, "", "//" + service + "/" + resource, "")
  }

  /** The common fields of an event without a context that has a type of Pub/Sub. */
  lemma PubSubFields(json: Json, id: string, resource: string)
    requires json.Obj? && !json.Has("context") && !json.Has("timestamp")
    requires json.At("eventType") == Ok(Str(TOPIC_PUBLISH))
    requires json.At("eventId") == Ok(Str(id)) && json.At("resource") == Ok(Str(resource))
    ensures ParseLegacyCommonFields(json) == Ok(PubSubCommon(id, resource))
  {
    var gcf := PubSubCommon(id, resource);
    PrefixedHasService(4, "eventTypes/topic.publish");
    FieldWithoutContext(json, CONTEXT_TYPE, "eventType");
    FieldWithoutContext(json, CONTEXT_ID, "eventId");
    FieldWithoutContext(json, CONTEXT_RESOURCE, "resource");
    FieldWithoutContext(json, CONTEXT_TIME, "timestamp");
    NothingInContext(json, CONTEXT_SERVICE);
    hide FieldIs, Given, MapGCFTypeToService;
    assert ServiceIs(json, TOPIC_PUBLISH, gcf.service) by {
      assert MapGCFTypeToService(TOPIC_PUBLISH) == Ok(gcf.service);
    }
    hide ServiceIs, ParseLegacyCommonFields;
    CommonFieldsAreExact(json, gcf);
  }

  lemma PublishIsPubSub()
    ensures MapGCFTypeToCloudEventType(TOPIC_PUBLISH) == Ok(PUBSUB_TYPE)
  {
    PublishIsTranslated();
  }

  /** A wrapped notification keeps its notice when it is stamped. */
  lemma StampedCarries(n: Notice, config: string, generation: string, gcf: Common)
    requires n.eventType in MESSAGE_TYPES
    ensures var message := Wrap(n, config, generation).fields["message"];
            && Stamped(message, Stamps(gcf)).Ok?
            && Carries(Obj(map["message" := Stamped(message, Stamps(gcf)).value]), n)
  {
    var message := Wrap(n, config, generation).fields["message"];
    StampsAccept(gcf, message);
    StampedKeys(message, gcf);
    var after := Stamped(message, Stamps(gcf)).value;
    hide Stamped, Stamps;
    assert !IsStamped(gcf, "data") && !IsStamped(gcf, "attributes");
    assert after.At("data") == message.At("data");
    assert after.At("attributes") == message.At("attributes");
  }

  lemma PublishedIsRead(p: Platform, json: Json, gcf: Common) returns (e: CloudEvent)
    requires json.Obj? && gcf.service == "pubsub.googleapis.com"
    requires gcf.eventType == TOPIC_PUBLISH && gcf.timestamp == ""
    requires Stamped(json.ValueOr("data", Null).value, Stamps(gcf)).Ok?
    ensures ServiceEvent(p, json, gcf) == Ok(e)
    ensures PayloadOf(json, gcf) ==
            Ok(Obj(map["message" := Stamped(json.ValueOr("data", Null).value, Stamps(gcf)).value]))
  {
    PublishIsPubSub();
    hide Stamped, Stamps, MapGCFTypeToCloudEventType;
    e := LegacyEvent(p, gcf, PayloadOf(json, gcf).value).value;
  }

  lemma LegacyNotificationIsRead(p: Platform, n: Notice, config: string, generation: string,
                                 id: string, resource: string)
    returns (e: CloudEvent, payload: Json)
    requires n.eventType in MESSAGE_TYPES
    ensures var json, gcf := LegacyNotification(n, config, generation, id, resource),
                             PubSubCommon(id, resource);
            && ParseLegacyCommonFields(json) == Ok(gcf) && ServiceEvent(p, json, gcf) == Ok(e)
            && PayloadOf(json, gcf) == Ok(payload) && Carries(payload, n)
  {
    hide Stamped, Stamps, Wrap, Carries, ParseLegacyCommonFields, ServiceEvent, PayloadOf;
    var json, gcf := LegacyNotification(n, config, generation, id, resource), PubSubCommon(id, resource);
    PubSubFields(json, id, resource);
    StampedCarries(n, config, generation, gcf);
    e := PublishedIsRead(p, json, gcf);
    payload := PayloadOf(json, gcf).value;
  }

  /** What unwrapping makes of an event that carries a notice of some bytes. */
  lemma NoticeIsUnwrapped(p: Platform, e: CloudEvent, payload: Json, n: Notice, bytes: string)
    requires IsCandidate(e) && e.data.Some? && p.parseJson(e.data.value) == Ok(payload)
    requires Carries(payload, n)
    requires Base64.IsBytes(bytes) && n.data == Base64.Encoded(bytes)
    ensures Unwrapped(p, Ok(e)) == Ok(StorageEvent(e, n, bytes))
  {
    hide Rewritten, Carries, Base64.Encoded, StorageEvent, IsCandidate;
    var encoded := Base64.Encoded(bytes);
    assert encoded[..|encoded| - 0] == encoded;
    RewriteInvertsWrapping(p, e, payload, n, bytes, 0);
  }

  /** A legacy event of the Pub/Sub type that carries a notice is delivered as a Pub/Sub event. */
  lemma LegacyNoticeStaysWrapped(p: Platform, q: Request, json: Json, gcf: Common, e: CloudEvent,
                                 payload: Json, n: Notice, bytes: string)
    requires IsLegacy(q) && p.parseJson(q.body) == Ok(json) && json.Obj?
    requires ParseLegacyCommonFields(json) == Ok(gcf) && ServiceEvent(p, json, gcf) == Ok(e)
    requires MapGCFTypeToCloudEventType(gcf.eventType) == Ok(PUBSUB_TYPE)
    requires PayloadOf(json, gcf) == Ok(payload) && p.parseJson(p.dumpJson(payload)) == Ok(payload)
    requires Carries(payload, n)
    requires Base64.IsBytes(bytes) && n.data == Base64.Encoded(bytes)
    ensures ReadHttp(p, q) == Ok([e]) && e.ceType == PUBSUB_TYPE
    ensures Unwrapped(p, Ok(e)) == Ok(StorageEvent(e, n, bytes))
  {
    hide ServiceEvent, PayloadOf, MapGCFTypeToCloudEventType, ParseLegacyCommonFields, ReadHttp,
         Rewritten, Carries, Base64.Encoded, StorageEvent, Unwrapped;
    LegacyCandidate(p, json, gcf, e, payload);
    LegacyDelivers(p, q, json);
    NoticeIsUnwrapped(p, e, payload, n, bytes);
  }

  /** A notification of any object, in the legacy format: it is delivered as a Pub/Sub event. */
  lemma LegacyNotificationStaysWrapped(p: Platform, q: Request, n: Notice, config: string,
                                       generation: string, id: string, resource: string,
                                       bytes: string)
    returns (e: CloudEvent)
    requires n.eventType in MESSAGE_TYPES && Base64.IsBytes(bytes) && n.data == Base64.Encoded(bytes)
    requires IsLegacy(q)
    requires p.parseJson(q.body) == Ok(LegacyNotification(n, config, generation, id, resource))
    requires var payload := PayloadOf(LegacyNotification(n, config, generation, id, resource),
                                      PubSubCommon(id, resource));
             payload.Ok? ==> p.parseJson(p.dumpJson(payload.value)) == payload
    ensures ReadHttp(p, q) == Ok([e]) && e.ceType == PUBSUB_TYPE
    ensures Unwrapped(p, Ok(e)) == Ok(StorageEvent(e, n, bytes))
  {
    hide ServiceEvent, PayloadOf, MapGCFTypeToCloudEventType, ParseLegacyCommonFields, ReadHttp,
         Unwrapped, Carries, Base64.Encoded, StorageEvent, IsLegacy;
    var payload: Json;
    e, payload := LegacyNotificationIsRead(p, n, config, generation, id, resource);
    PublishIsPubSub();
    LegacyNoticeStaysWrapped(p, q, LegacyNotification(n, config, generation, id, resource),
                             PubSubCommon(id, resource), e, payload, n, bytes);
  }

  /** The event of a notification that Pub/Sub pushes. */
  function PushedNotification(id: string, source: string, text: string): Message {
    Message(id, source, PUBSUB_TYPE, None, Some("application/json"), None, None, None, Some(text))
  }

  /** A message with a notice: alone it is unwrapped, in a batch of one it stays wrapped. */
  lemma BatchNoticeStaysWrapped(p: Platform, q: Request, s: Request, j: Json, m: Message,
                                e: CloudEvent, payload: Json, n: Notice, bytes: string)
    requires HasContentType(q, BATCH) && p.parseJson(q.body) == Ok(Arr([j]))
    requires HasContentType(s, STRUCTURED) && p.parseJson(s.body) == Ok(j)
    requires JsonEvents.IsFormOf(p, j, m) && Meaning(p, m) == Ok(e)
    requires IsCandidate(e) && e.data.Some? && p.parseJson(e.data.value) == Ok(payload)
    requires Carries(payload, n)
    requires Base64.IsBytes(bytes) && n.data == Base64.Encoded(bytes)
    ensures ReadHttp(p, q) == Ok([e]) && e.ceType == PUBSUB_TYPE
    ensures ReadHttp(p, s) == Ok([StorageEvent(e, n, bytes)])
  {
    hide JsonEvents.IsFormOf, ReadHttp, Meaning, Unwrapped, Carries, Base64.Encoded, StorageEvent,
         HasContentType;
    BatchOfOneDiffers(p, q, s, j, m, e);
    StructuredDelivers(p, s, j, m);
    NoticeIsUnwrapped(p, e, payload, n, bytes);
  }

  /** Such a batch exists for a notification of any object. */
  lemma BatchNotificationStaysWrapped(p: Platform, q: Request, s: Request, n: Notice, config: string,
                                      generation: string, id: string, source: string, text: string,
                                      bytes: string)
    returns (e: CloudEvent)
    requires n.eventType in MESSAGE_TYPES && Base64.IsBytes(bytes) && n.data == Base64.Encoded(bytes)
    requires p.parseJson(text) == Ok(Wrap(n, config, generation))
    requires var j := JsonEvents.FormOf(PushedNotification(id, source, text), JsonEvents.Quoted(text));
             && HasContentType(q, BATCH) && p.parseJson(q.body) == Ok(Arr([j]))
             && HasContentType(s, STRUCTURED) && p.parseJson(s.body) == Ok(j)
    ensures ReadHttp(p, q) == Ok([e]) && e.ceType == PUBSUB_TYPE
    ensures ReadHttp(p, s) == Ok([StorageEvent(e, n, bytes)])
  {
    hide JsonEvents.FormOf, JsonEvents.IsFormOf, JsonEvents.MessageOf, ReadHttp, Rewritten, Carries,
         Base64.Encoded, StorageEvent, Wrap, HasContentType;
    var m := PushedNotification(id, source, text);
    var j := JsonEvents.FormOf(m, JsonEvents.Quoted(text));
    e := Meaning(p, m).value;
    JsonEvents.FormIsRead(p, m, JsonEvents.Quoted(text));
    JsonEvents.ReadsExactlyForms(p, j, m);
    BatchNoticeStaysWrapped(p, q, s, j, m, e, Wrap(n, config, generation), n, bytes);
  }
}
