/**
 * Cloud Storage notifications that arrive wrapped in Pub/Sub messages, and the rewrite that
 * turns them back into storage events.
 */
module StorageEvents {
  import opened Wrappers
  import opened JsonValues
  import opened CloudEvents
  import Base64

  const PUBSUB_TYPE := "google.cloud.pubsub.topic.v1.messagePublished"
  const BUCKETS := "//storage.googleapis.com/projects/_/buckets/"
  const OBJECTS := "objects/"
  const STORAGE_SCHEMA := "google.events.cloud.storage.v1.StorageObjectData"

  const MESSAGE_TYPES: map<string, string> := map[
    "OBJECT_FINALIZE" := "google.cloud.storage.object.v1.finalized",
    "OBJECT_METADATA_UPDATE" := "google.cloud.storage.object.v1.metadataUpdated",
    "OBJECT_DELETE" := "google.cloud.storage.object.v1.deleted",
    "OBJECT_ARCHIVE" := "google.cloud.storage.object.v1.archived"]

  const REQUIRED_ATTRIBUTES: seq<string> := [
    "notificationConfig", "eventType", "payloadFormat", "bucketId", "objectId", "objectGeneration"]

  /** What a storage notification says: the event type, bucket and object, and the wrapped data. */
  datatype Notice = Notice(eventType: string, bucket: string, objectName: string, data: string)

  /** The event can be a wrapped notification at all. */
  predicate IsCandidate(e: CloudEvent) {
    e.ceType == PUBSUB_TYPE && e.dataContentType == Some("application/json")
  }

  predicate HasAllAttributes(j: Json)
    ensures HasAllAttributes(j) ==>
              && j.Obj? && "eventType" in j.fields && "payloadFormat" in j.fields
              && "bucketId" in j.fields && "objectId" in j.fields
  {
    var all := forall i :: 0 <= i < |REQUIRED_ATTRIBUTES| ==> j.Has(REQUIRED_ATTRIBUTES[i]);
    assert all ==> j.Has(REQUIRED_ATTRIBUTES[1]) && j.Has(REQUIRED_ATTRIBUTES[2]);
    assert all ==> j.Has(REQUIRED_ATTRIBUTES[3]) && j.Has(REQUIRED_ATTRIBUTES[4]);
    all
  }

  /** The attributes of a message that has data; `None` when it is not a storage message. */
  function StorageAttributes(payload: Json): (attributes: Option<Json>)
    ensures attributes.Some? ==> HasAllAttributes(attributes.value)
  {
    if payload.Has("message")
       && payload.fields["message"].Has("data")
       && payload.fields["message"].Has("attributes")
       && HasAllAttributes(payload.fields["message"].fields["attributes"])
    then Some(payload.fields["message"].fields["attributes"])
    else None
  }

  /** The payload carries the notice `n`, as the notification service writes it. */
  predicate Carries(payload: Json, n: Notice) {
    && StorageAttributes(payload).Some?
    && var attributes := StorageAttributes(payload).value.fields;
    && attributes["payloadFormat"] == Str("JSON_API_V1")
    && n.eventType in MESSAGE_TYPES && attributes["eventType"] == Str(n.eventType)
    && attributes["bucketId"] == Str(n.bucket)
    && attributes["objectId"] == Str(n.objectName)
    && payload.fields["message"].fields["data"] == Str(n.data)
  }

  /** The payload is left alone: it is no storage message, or one of a format or type not known. */
  predicate IsForeign(payload: Json) {
    match StorageAttributes(payload)
    case None => true
    case Some(attributes) =>
      && attributes.fields["payloadFormat"].Str?
      && (attributes.fields["payloadFormat"] == Str("JSON_API_V1") ==>
            attributes.fields["eventType"].Str? && attributes.fields["eventType"].s !in MESSAGE_TYPES)
  }

  /** The storage event for notice `n`, with the context of the event it arrived in. */
  function StorageEvent(e: CloudEvent, n: Notice, data: string): CloudEvent
    requires n.eventType in MESSAGE_TYPES
  {
    CloudEvent(e.id, BUCKETS + n.bucket, MESSAGE_TYPES[n.eventType], e.specVersion,
               Some("application/json"), Some(STORAGE_SCHEMA), Some(OBJECTS + n.objectName),
               e.time, Some(data))
  }

  /** The notice in a payload, if there is one. There is never more than one. */
  function NoticeOf(payload: Json): (n: Option<Notice>)
    ensures n.Some? ==> Carries(payload, n.value)
    ensures forall m :: Carries(payload, m) ==> n == Some(m)
  {
    if StorageAttributes(payload).None? then None
    else
      var attributes, data :=
        StorageAttributes(payload).value.fields, payload.fields["message"].fields["data"];
      if !attributes["eventType"].Str? || !attributes["bucketId"].Str?
         || !attributes["objectId"].Str? || !data.Str? then None
      else
        var n := Notice(attributes["eventType"].s, attributes["bucketId"].s,
                        attributes["objectId"].s, data.s);
        if Carries(payload, n) then Some(n) else None
  }

  /**
   * The rewrite: the storage event when the payload carries a notice with decodable data, the
   * same event when the payload is foreign, and an error otherwise.
   */
  function Rewritten(p: Platform, e: CloudEvent): (r: Result<CloudEvent>) {
    if !IsCandidate(e) then Ok(e)
    else
      var payload :- p.parseJson(e.data.GetOr("{}"));
      if IsForeign(payload) then Ok(e)
      else
        match NoticeOf(payload)
        case None => Thrown(JSON_ERROR)
        case Some(n) =>
          var data :- Base64.Decoded(n.data);
          Ok(StorageEvent(e, n, data))
  }

  method ParseCloudEventStorage(p: Platform, e: CloudEvent) returns (r: Result<CloudEvent>)
    ensures r == Rewritten(p, e)
    ensures r.Ok? && r.value != e ==>
              exists payload :: p.parseJson(e.data.GetOr("{}")) == Ok(payload)
                                && IsToldBy(payload, e, r.value)
  {
    hide IsToldBy;
    if e.ceType != PUBSUB_TYPE { return Ok(e); }
    if e.dataContentType.GetOr("") != "application/json" { return Ok(e); }

    var payload :- p.parseJson(e.data.GetOr("{}"));
    if !payload.Has("message") { return Ok(e); }
    var message := payload.fields["message"];
    if !message.Has("attributes") || !message.Has("data") { return Ok(e); }
    var attributes := message.fields["attributes"];
    if !HasAllAttributes(attributes) { return Ok(e); }
    var format :- attributes.TextOr("payloadFormat", "");
    if format != "JSON_API_V1" { return Ok(e); }
    var eventType :- attributes.TextOr("eventType", "");
    if eventType !in MESSAGE_TYPES { return Ok(e); }

    var bucket :- attributes.TextOr("bucketId", "");
    var event := NewEvent(e.id, BUCKETS + bucket, MESSAGE_TYPES[eventType], e.specVersion);
    event := event.(dataContentType := Some("application/json"));
    event := event.(dataSchema := Some(STORAGE_SCHEMA));
    var objectName :- attributes.TextOr("objectId", "");
    event := event.(subject := Some(OBJECTS + objectName));
    if e.time.Some? {
      event := event.(time := e.time);
    }
    var encoded :- message.TextOr("data", "");
    assert Carries(payload, Notice(eventType, bucket, objectName, encoded));
    var data :- Base64.Base64Decode(encoded);
    event := event.(data := Some(data));
    RewriteIsTold(p, e, event);
    return Ok(event);
  }

  /** A notification as the service publishes it. */
  function Wrap(n: Notice, config: string, generation: string): (payload: Json)
    requires n.eventType in MESSAGE_TYPES
    ensures Carries(payload, n)
  {
    var attributes := Obj(map[
      "notificationConfig" := Str(config), "eventType" := Str(n.eventType),
      "payloadFormat" := Str("JSON_API_V1"), "bucketId" := Str(n.bucket),
      "objectId" := Str(n.objectName), "objectGeneration" := Str(generation)]);
    Obj(map["message" := Obj(map["attributes" := attributes, "data" := Str(n.data)])])
  }

  /** A payload that carries a notice is not foreign. */
  lemma CarriersAreNotForeign(payload: Json, n: Notice)
    requires Carries(payload, n)
    ensures !IsForeign(payload) && NoticeOf(payload) == Some(n)
  {
  }

  /**
   * Rewriting inverts wrapping: any bucket, any object, any known event type and any bytes, with
   * or without the trailing padding of their encoding.
   */
  lemma RewriteInvertsWrapping(p: Platform, e: CloudEvent, payload: Json, n: Notice,
                               bytes: string, dropped: nat)
    requires Base64.IsBytes(bytes) && dropped <= Base64.TrailingPads(Base64.Encoded(bytes))
    requires n.data == Base64.Encoded(bytes)[..|Base64.Encoded(bytes)| - dropped]
    requires IsCandidate(e) && e.data.Some? && p.parseJson(e.data.value) == Ok(payload)
    requires Carries(payload, n)
    ensures Rewritten(p, e) == Ok(StorageEvent(e, n, bytes))
    ensures var r := StorageEvent(e, n, bytes);
            && r.source == "//storage.googleapis.com/projects/_/buckets/" + n.bucket
            && r.subject == Some("objects/" + n.objectName)
            && IsTypePair(n.eventType, r.ceType) && r.data == Some(bytes)
            && r.id == e.id && r.specVersion == e.specVersion && r.time == e.time
  {
    hide Carries, StorageEvent, IsForeign, Base64.Decoded, Base64.Encoded, IsTypePair;
    CarriersAreNotForeign(payload, n);
    StorageEventFields(payload, n, e, bytes);
    Base64.RoundTrip(bytes, dropped);
  }

  lemma StorageEventFields(payload: Json, n: Notice, e: CloudEvent, bytes: string)
    requires Carries(payload, n)
    ensures var r := StorageEvent(e, n, bytes);
            && r.source == "//storage.googleapis.com/projects/_/buckets/" + n.bucket
            && r.subject == Some("objects/" + n.objectName)
            && IsTypePair(n.eventType, r.ceType) && r.data == Some(bytes)
            && r.id == e.id && r.specVersion == e.specVersion && r.time == e.time
  {
  }

  /** Exactly when an event is replaced, and by what. */
  lemma RewritesExactlyNotices(p: Platform, e: CloudEvent, r: CloudEvent)
    ensures Rewritten(p, e) == Ok(r) && r != e <==>
            exists payload, n, data ::
              && IsCandidate(e) && p.parseJson(e.data.GetOr("{}")) == Ok(payload)
              && Carries(payload, n) && Base64.Decoded(n.data) == Ok(data)
              && r == StorageEvent(e, n, data)
  {
    hide Base64.Decoded;
  }

  /** Exactly when an event passes unchanged. */
  lemma KeepsExactlyTheRest(p: Platform, e: CloudEvent)
    ensures Rewritten(p, e) == Ok(e) <==>
            IsCandidate(e) ==>
              exists payload :: p.parseJson(e.data.GetOr("{}")) == Ok(payload) && IsForeign(payload)
  {
  }

  // ----- The rewrite, attribute by attribute -----

  /** The pairs of the table. */
  predicate IsTypePair(eventType: string, ceType: string) {
    || (eventType == "OBJECT_FINALIZE" && ceType == "google.cloud.storage.object.v1.finalized")
    || (eventType == "OBJECT_METADATA_UPDATE"
        && ceType == "google.cloud.storage.object.v1.metadataUpdated")
    || (eventType == "OBJECT_DELETE" && ceType == "google.cloud.storage.object.v1.deleted")
    || (eventType == "OBJECT_ARCHIVE" && ceType == "google.cloud.storage.object.v1.archived")
  }

  /** The message has its data and all six attributes. */
  predicate HasMessage(payload: Json) {
    && payload.Has("message")
    && var message := payload.fields["message"];
    && message.Has("data") && message.Has("attributes")
    && var attributes := message.fields["attributes"];
    && attributes.Has("notificationConfig") && attributes.Has("eventType")
    && attributes.Has("payloadFormat") && attributes.Has("bucketId")
    && attributes.Has("objectId") && attributes.Has("objectGeneration")
  }

  /**
   * `r` is the storage event that the payload of `e` tells: the bucket is its source, the object
   * its subject, and the decoded data its payload.
   */
  predicate IsToldBy(payload: Json, e: CloudEvent, r: CloudEvent) {
    && HasMessage(payload)
    && var data := payload.fields["message"].fields["data"];
    && var attributes := payload.fields["message"].fields["attributes"].fields;
    && attributes["payloadFormat"] == Str("JSON_API_V1")
    && attributes["eventType"].Str? && IsTypePair(attributes["eventType"].s, r.ceType)
    && attributes["bucketId"].Str?
    && r.source == "//storage.googleapis.com/projects/_/buckets/" + attributes["bucketId"].s
    && attributes["objectId"].Str? && r.subject == Some("objects/" + attributes["objectId"].s)
    && data.Str? && r.data.Some? && Base64.Decoded(data.s) == Ok(r.data.value)
    && r.dataContentType == Some("application/json")
    && r.dataSchema == Some("google.events.cloud.storage.v1.StorageObjectData")
    && r.id == e.id && r.specVersion == e.specVersion && r.time == e.time
  }

  lemma MessageHasAttributes(payload: Json)
    ensures StorageAttributes(payload).Some? <==> HasMessage(payload)
  {
    var names := REQUIRED_ATTRIBUTES;
    assert names[0] == "notificationConfig" && names[1] == "eventType" && names[2] == "payloadFormat";
    assert names[3] == "bucketId" && names[4] == "objectId" && names[5] == "objectGeneration";
    if payload.Has("message") && payload.fields["message"].Has("attributes") {
      var attributes := payload.fields["message"].fields["attributes"];
      assert HasAllAttributes(attributes) ==> attributes.Has(names[0]) && attributes.Has(names[5]);
    }
  }

  lemma NoticeIsTold(payload: Json, e: CloudEvent, r: CloudEvent)
    ensures IsToldBy(payload, e, r) <==>
            exists n, data :: Carries(payload, n) && Base64.Decoded(n.data) == Ok(data)
                              && r == StorageEvent(e, n, data)
  {
    hide Base64.Decoded, StorageAttributes;
    MessageHasAttributes(payload);
    if IsToldBy(payload, e, r) {
      var attributes := payload.fields["message"].fields["attributes"].fields;
      var n := Notice(attributes["eventType"].s, attributes["bucketId"].s, attributes["objectId"].s,
                      payload.fields["message"].fields["data"].s);
      AttributesAreThose(payload);
      assert Carries(payload, n);
      assert r == StorageEvent(e, n, r.data.value);
    }
    if n, data :| Carries(payload, n) && Base64.Decoded(n.data) == Ok(data)
                  && r == StorageEvent(e, n, data) {
      AttributesAreThose(payload);
    }
  }

  lemma AttributesAreThose(payload: Json)
    requires StorageAttributes(payload).Some?
    ensures payload.Has("message") && payload.fields["message"].Has("attributes")
    ensures StorageAttributes(payload).value == payload.fields["message"].fields["attributes"]
  {
  }

  /** Exactly which events are replaced, and what every field of the new event is. */
  lemma RewriteIsTold(p: Platform, e: CloudEvent, r: CloudEvent)
    ensures Rewritten(p, e) == Ok(r) && r != e <==>
            && e.ceType == "google.cloud.pubsub.topic.v1.messagePublished"
            && e.dataContentType == Some("application/json")
            && exists payload ::
                 p.parseJson(e.data.GetOr("{}")) == Ok(payload) && IsToldBy(payload, e, r)
  {
    RewritesExactlyNotices(p, e, r);
    hide Rewritten, IsToldBy, Carries, StorageEvent, Base64.Decoded;
    if p.parseJson(e.data.GetOr("{}")).Ok? {
      NoticeIsTold(p.parseJson(e.data.GetOr("{}")).value, e, r);
    }
  }

  /** Exactly which payloads are left alone. */
  lemma ForeignIsExact(payload: Json)
    ensures IsForeign(payload) <==>
            || !HasMessage(payload)
            || (var attributes := payload.fields["message"].fields["attributes"].fields;
                && attributes["payloadFormat"].Str?
                && (attributes["payloadFormat"].s == "JSON_API_V1" ==>
                      && attributes["eventType"].Str?
                      && forall ceType :: !IsTypePair(attributes["eventType"].s, ceType)))
  {
    hide StorageAttributes;
    MessageHasAttributes(payload);
    if StorageAttributes(payload).Some? {
      AttributesAreThose(payload);
      var attributes := payload.fields["message"].fields["attributes"].fields;
      if attributes["eventType"].Str? && attributes["eventType"].s in MESSAGE_TYPES {
        assert IsTypePair(attributes["eventType"].s, MESSAGE_TYPES[attributes["eventType"].s]);
      }
    }
  }

  /** The context attributes that identify the delivery are never changed. */
  lemma ContextIsKept(p: Platform, e: CloudEvent, r: CloudEvent)
    requires Rewritten(p, e) == Ok(r)
    ensures r.id == e.id && r.specVersion == e.specVersion && r.time == e.time
    ensures r != e ==> !IsCandidate(r)
  {
  }

  /** Rewriting twice is rewriting once. */
  lemma RewriteIsIdempotent(p: Platform, e: CloudEvent, r: CloudEvent)
    requires Rewritten(p, e) == Ok(r)
    ensures Rewritten(p, r) == Ok(r)
  {
    ContextIsKept(p, e, r);
  }

  /** A rewritten event still tells which notice it came from. */
  lemma RewriteLosesNothing(e: CloudEvent, n: Notice, data: string,
                            e': CloudEvent, n': Notice, data': string)
    requires n.eventType in MESSAGE_TYPES && n'.eventType in MESSAGE_TYPES
    requires StorageEvent(e, n, data) == StorageEvent(e', n', data')
    ensures n.eventType == n'.eventType && n.bucket == n'.bucket && n.objectName == n'.objectName
    ensures data == data' && e.id == e'.id && e.time == e'.time
  {
    var s, s' := StorageEvent(e, n, data), StorageEvent(e', n', data');
    assert n.bucket == s.source[|BUCKETS|..] && n'.bucket == s'.source[|BUCKETS|..];
    assert n.objectName == s.subject.value[|OBJECTS|..] && n'.objectName == s'.subject.value[|OBJECTS|..];
  }
}
