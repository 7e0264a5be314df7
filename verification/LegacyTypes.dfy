/** The two tables that translate the event types of legacy events. */
module LegacyTypes {
  import opened Wrappers
  import opened Text

  const FIRESTORE_TYPES := "providers/cloud.firestore/"
  const ANALYTICS_TYPES := "providers/google.firebase.analytics/"
  const AUTH_TYPES := "providers/firebase.auth/"
  const DATABASE_TYPES := "providers/google.firebase.database/"
  const PUBSUB_TYPES := "providers/cloud.pubsub/"
  const STORAGE_TYPES := "google.storage.object."

  const PUBLISH := "google.pubsub.topic.publish"
  const REMOTE_CONFIG := "providers/firebase.remoteConfig/remoteconfig.update"
  const TOPIC_PUBLISH := PUBSUB_TYPES + "eventTypes/topic.publish"

  const TYPE_PREFIXES: seq<(string, string)> := [
    (FIRESTORE_TYPES, "firestore.googleapis.com"),
    (ANALYTICS_TYPES, "firebaseanalytics.googleapis.com"),
    (AUTH_TYPES, "firebaseauth.googleapis.com"),
    (DATABASE_TYPES, "firebasedatabase.googleapis.com"),
    (PUBSUB_TYPES, "pubsub.googleapis.com"),
    (STORAGE_TYPES, "storage.googleapis.com")]

  const EVENT_TYPES: map<string, string> := map[
    FIRESTORE_TYPES + "eventTypes/document.write" := "google.cloud.firestore.document.v1.written",
    FIRESTORE_TYPES + "eventTypes/document.create" := "google.cloud.firestore.document.v1.created",
    FIRESTORE_TYPES + "eventTypes/document.update" := "google.cloud.firestore.document.v1.updated",
    FIRESTORE_TYPES + "eventTypes/document.delete" := "google.cloud.firestore.document.v1.deleted",
    AUTH_TYPES + "eventTypes/user.create" := "google.firebase.auth.user.v1.created",
    AUTH_TYPES + "eventTypes/user.delete" := "google.firebase.auth.user.v1.deleted",
    REMOTE_CONFIG := "google.firebase.remoteconfig.remoteConfig.v1.updated",
    ANALYTICS_TYPES + "eventTypes/event.log" := "google.firebase.analytics.log.v1.written",
    DATABASE_TYPES + "eventTypes/ref.create" := "google.firebase.database.ref.v1.created",
    DATABASE_TYPES + "eventTypes/ref.write" := "google.firebase.database.ref.v1.written",
    DATABASE_TYPES + "eventTypes/ref.update" := "google.firebase.database.ref.v1.updated",
    DATABASE_TYPES + "eventTypes/ref.delete" := "google.firebase.database.ref.v1.deleted",
    PUBLISH := "google.cloud.pubsub.topic.v1.messagePublished",
    TOPIC_PUBLISH := "google.cloud.pubsub.topic.v1.messagePublished",
    STORAGE_TYPES + "finalize" := "google.cloud.storage.object.v1.finalized",
    STORAGE_TYPES + "delete" := "google.cloud.storage.object.v1.deleted",
    STORAGE_TYPES + "archive" := "google.cloud.storage.object.v1.archived",
    STORAGE_TYPES + "metadataUpdate" := "google.cloud.storage.object.v1.metadataUpdated"]

  /** The service of the first prefix that the type has. */
  function FirstService(prefixes: seq<(string, string)>, eventType: string): Result<string> {
    if prefixes == [] then
      Thrown("Cannot match GCF event type <" + eventType + "> to a known prefix")
    else if StartsWith(eventType, prefixes[0].0) then Ok(prefixes[0].1)
    else FirstService(prefixes[1..], eventType)
  }

  function MapGCFTypeToService(eventType: string): Result<string> {
    FirstService(TYPE_PREFIXES, eventType)
  }

  function MapGCFTypeToCloudEventType(eventType: string): Result<string> {
    if eventType in EVENT_TYPES then Ok(EVENT_TYPES[eventType])
    else if StartsWith(eventType, STORAGE_TYPES) then Ok(eventType)
    else Thrown("Unknown mapping for GCF event type <" + eventType + ">")
  }

  /** No entry of the table is a prefix of another. */
  predicate Disjoint(prefixes: seq<(string, string)>) {
    forall i, j :: 0 <= i < j < |prefixes| ==>
      !StartsWith(prefixes[j].0, prefixes[i].0) && !StartsWith(prefixes[i].0, prefixes[j].0)
  }

  /** In a table of disjoint prefixes the order of the entries does not matter. */
  lemma {:induction false} AnyMatchIsFirst(prefixes: seq<(string, string)>, eventType: string, i: nat)
    requires Disjoint(prefixes)
    requires i < |prefixes| && StartsWith(eventType, prefixes[i].0)
    ensures FirstService(prefixes, eventType) == Ok(prefixes[i].1)
  {
    if i > 0 {
      if StartsWith(eventType, prefixes[0].0) {
        PrefixesNest(prefixes[0].0, prefixes[i].0, eventType);
      }
      AnyMatchIsFirst(prefixes[1..], eventType, i - 1);
    }
  }

  lemma {:induction false} NoneMatches(prefixes: seq<(string, string)>, eventType: string)
    requires forall i :: 0 <= i < |prefixes| ==> !StartsWith(eventType, prefixes[i].0)
    ensures FirstService(prefixes, eventType).Thrown?
  {
    if prefixes != [] {
      NoneMatches(prefixes[1..], eventType);
    }
  }

  lemma TypePrefixesAreDisjoint()
    ensures Disjoint(TYPE_PREFIXES)
  {
    hide StartsWith;
    var t := TYPE_PREFIXES;
    DifferAt(t[0].0, t[1].0, 10); DifferAt(t[0].0, t[2].0, 10); DifferAt(t[0].0, t[3].0, 10);
    DifferAt(t[0].0, t[4].0, 16); DifferAt(t[0].0, t[5].0, 21);
    DifferAt(t[1].0, t[2].0, 10); DifferAt(t[1].0, t[3].0, 26); DifferAt(t[1].0, t[4].0, 10);
    DifferAt(t[1].0, t[5].0, 21);
    DifferAt(t[2].0, t[3].0, 10); DifferAt(t[2].0, t[4].0, 10); DifferAt(t[2].0, t[5].0, 21);
    DifferAt(t[3].0, t[4].0, 10); DifferAt(t[3].0, t[5].0, 21);
    DifferAt(t[4].0, t[5].0, 21);
  }

  /** The service of a type is that of whichever prefix of the table it has. */
  lemma ServiceOfAnyPrefix(eventType: string)
    ensures MapGCFTypeToService(eventType).Ok? <==>
            exists i :: 0 <= i < |TYPE_PREFIXES| && StartsWith(eventType, TYPE_PREFIXES[i].0)
    ensures forall i :: 0 <= i < |TYPE_PREFIXES| && StartsWith(eventType, TYPE_PREFIXES[i].0) ==>
              MapGCFTypeToService(eventType) == Ok(TYPE_PREFIXES[i].1)
  {
    hide FirstService, Disjoint;
    TypePrefixesAreDisjoint();
    if i :| 0 <= i < |TYPE_PREFIXES| && StartsWith(eventType, TYPE_PREFIXES[i].0) {
      AnyMatchIsFirst(TYPE_PREFIXES, eventType, i);
    } else {
      NoneMatches(TYPE_PREFIXES, eventType);
    }
    forall i | 0 <= i < |TYPE_PREFIXES| && StartsWith(eventType, TYPE_PREFIXES[i].0)
      ensures MapGCFTypeToService(eventType) == Ok(TYPE_PREFIXES[i].1)
    {
      AnyMatchIsFirst(TYPE_PREFIXES, eventType, i);
    }
  }

  lemma PublishHasNoPrefix()
    ensures MapGCFTypeToService(PUBLISH).Thrown?
  {
    hide StartsWith;
    var t := TYPE_PREFIXES;
    DifferAt(PUBLISH, t[0].0, 0);
    DifferAt(PUBLISH, t[1].0, 0);
    DifferAt(PUBLISH, t[2].0, 0);
    DifferAt(PUBLISH, t[3].0, 0);
    DifferAt(PUBLISH, t[4].0, 0);
    DifferAt(PUBLISH, t[5].0, 7);
    NoneMatches(t, PUBLISH);
  }

  lemma RemoteConfigHasNoPrefix()
    ensures MapGCFTypeToService(REMOTE_CONFIG).Thrown?
  {
    hide StartsWith;
    var t := TYPE_PREFIXES;
    DifferAt(REMOTE_CONFIG, t[0].0, 10);
    DifferAt(REMOTE_CONFIG, t[1].0, 10);
    DifferAt(REMOTE_CONFIG, t[2].0, 19);
    DifferAt(REMOTE_CONFIG, t[3].0, 10);
    DifferAt(REMOTE_CONFIG, t[4].0, 10);
    DifferAt(REMOTE_CONFIG, t[5].0, 21);
    NoneMatches(t, REMOTE_CONFIG);
  }

  lemma PrefixedHasService(i: nat, rest: string)
    requires i < |TYPE_PREFIXES|
    ensures MapGCFTypeToService(TYPE_PREFIXES[i].0 + rest) == Ok(TYPE_PREFIXES[i].1)
  {
    hide MapGCFTypeToService;
    assert StartsWith(TYPE_PREFIXES[i].0 + rest, TYPE_PREFIXES[i].0);
    ServiceOfAnyPrefix(TYPE_PREFIXES[i].0 + rest);
  }

  /** Of all types in the table two have no prefix, and so need a service in the context. */
  lemma TypesWithoutService()
    ensures forall t :: t in EVENT_TYPES ==>
              (MapGCFTypeToService(t).Thrown? <==> t == PUBLISH || t == REMOTE_CONFIG)
    ensures PUBLISH in EVENT_TYPES && REMOTE_CONFIG in EVENT_TYPES
  {
    hide MapGCFTypeToService;
    PublishHasNoPrefix();
    RemoteConfigHasNoPrefix();
    PrefixedHasService(0, "eventTypes/document.write");
    PrefixedHasService(0, "eventTypes/document.create");
    PrefixedHasService(0, "eventTypes/document.update");
    PrefixedHasService(0, "eventTypes/document.delete");
    PrefixedHasService(1, "eventTypes/event.log");
    PrefixedHasService(2, "eventTypes/user.create");
    PrefixedHasService(2, "eventTypes/user.delete");
    PrefixedHasService(3, "eventTypes/ref.create");
    PrefixedHasService(3, "eventTypes/ref.write");
    PrefixedHasService(3, "eventTypes/ref.update");
    PrefixedHasService(3, "eventTypes/ref.delete");
    PrefixedHasService(4, "eventTypes/topic.publish");
    PrefixedHasService(5, "finalize");
    PrefixedHasService(5, "delete");
    PrefixedHasService(5, "archive");
    PrefixedHasService(5, "metadataUpdate");
  }

  /** The four storage types and what they are translated to. */
  lemma StorageTypesAreTranslated()
    ensures MapGCFTypeToCloudEventType("google.storage.object." + "finalize") ==
            Ok("google.cloud.storage.object.v1.finalized")
    ensures MapGCFTypeToCloudEventType("google.storage.object." + "delete") ==
            Ok("google.cloud.storage.object.v1.deleted")
    ensures MapGCFTypeToCloudEventType("google.storage.object." + "archive") ==
            Ok("google.cloud.storage.object.v1.archived")
    ensures MapGCFTypeToCloudEventType("google.storage.object." + "metadataUpdate") ==
            Ok("google.cloud.storage.object.v1.metadataUpdated")
  {
    SameStart(STORAGE_TYPES, "finalize", "delete");
    SameStart(STORAGE_TYPES, "finalize", "archive");
    SameStart(STORAGE_TYPES, "finalize", "metadataUpdate");
    SameStart(STORAGE_TYPES, "delete", "archive");
    SameStart(STORAGE_TYPES, "delete", "metadataUpdate");
    SameStart(STORAGE_TYPES, "archive", "metadataUpdate");
  }

  lemma SameStart(prefix: string, a: string, b: string)
    requires a != b
    ensures prefix + a != prefix + b
  {
    assert a == (prefix + a)[|prefix|..] && b == (prefix + b)[|prefix|..];
  }

  /** Both types of a published message are translated to that of Pub/Sub. */
  lemma PublishIsTranslated()
    ensures MapGCFTypeToCloudEventType(TOPIC_PUBLISH) ==
            Ok("google.cloud.pubsub.topic.v1.messagePublished")
  {
    DifferAt(PUBSUB_TYPES, STORAGE_TYPES, 21);
    NotSamePrefix(PUBSUB_TYPES, STORAGE_TYPES, "eventTypes/topic.publish", "finalize");
    NotSamePrefix(PUBSUB_TYPES, STORAGE_TYPES, "eventTypes/topic.publish", "delete");
    NotSamePrefix(PUBSUB_TYPES, STORAGE_TYPES, "eventTypes/topic.publish", "archive");
    NotSamePrefix(PUBSUB_TYPES, STORAGE_TYPES, "eventTypes/topic.publish", "metadataUpdate");
  }

  lemma NotSamePrefix(a: string, b: string, x: string, y: string)
    requires !StartsWith(a, b) && !StartsWith(b, a)
    ensures a + x != b + y
  {
    if a + x == b + y {
      assert StartsWith(a + x, a) && StartsWith(b + y, b);
      PrefixesNest(a, b, a + x);
    }
  }
}
