/**
 * The two ways in which an object's change is told: a notification that is wrapped in a Pub/Sub
 * message, and a legacy storage event. Both are delivered under the same source, subject and type.
 */
module StorageAgreement {
  import opened Wrappers
  import opened JsonValues
  import opened CloudEvents
  import opened StorageEvents
  import opened LegacyTypes
  import opened LegacyFields
  import opened LegacyNames
  import opened LegacyEvents
  import Base64

  /** What happened to the object. */
  datatype Change = Finalized | Deleted | Archived | MetadataUpdated {
    /** The event type in a notification. */
    function Notified(): string {
      match this
      case Finalized => "OBJECT_FINALIZE"
      case Deleted => "OBJECT_DELETE"
      case Archived => "OBJECT_ARCHIVE"
      case MetadataUpdated => "OBJECT_METADATA_UPDATE"
    }

    /** The type of the legacy event. */
    function Legacy(): string {
      match this
      case Finalized => "google.storage.object." + "finalize"
      case Deleted => "google.storage.object." + "delete"
      case Archived => "google.storage.object." + "archive"
      case MetadataUpdated => "google.storage.object." + "metadataUpdate"
    }
  }

  /** The two tables translate a change to the same type. */
  lemma SameType(change: Change, ceType: string)
    ensures IsTypePair(change.Notified(), ceType) <==>
            MapGCFTypeToCloudEventType(change.Legacy()) == Ok(ceType)
  {
    StorageTypesAreTranslated();
    hide MapGCFTypeToCloudEventType;
  }

  /** What a legacy event says of an object. */
  predicate IsLegacyFor(gcf: Common, change: Change, bucket: string, name: string, generation: string) {
    && gcf.service == "storage.googleapis.com" && gcf.eventType == change.Legacy()
    && gcf.source == BUCKETS + bucket + ("/" + OBJECTS) + (name + "#" + generation)
  }

  /**
   * For any bucket, object and change: the event `r` to which a notification is rewritten, and
   * the event `l` as which a legacy event of any generation is read, tell the same.
   */
  lemma NotificationAgreesWithLegacy(p: Platform, e: CloudEvent, payload: Json, n: Notice,
                                     json: Json, gcf: Common, change: Change, generation: string)
    requires IsCandidate(e) && p.parseJson(e.data.GetOr("{}")) == Ok(payload) && Carries(payload, n)
    requires n.eventType == change.Notified()
    requires json.Obj? && IsSegment(n.bucket) && IsDigits(generation)
    requires '\n' !in n.objectName && '\r' !in n.objectName
    requires IsLegacyFor(gcf, change, n.bucket, n.objectName, generation)
    ensures forall r, l :: Rewritten(p, e) == Ok(r) && ServiceEvent(p, json, gcf) == Ok(l) ==>
              r.source == l.source && r.subject == l.subject && r.ceType == l.ceType
  {
    hide Rewritten, Carries, IsCandidate, ServiceEvent, IsTypePair, MapGCFTypeToCloudEventType;
    if Rewritten(p, e).Ok? && ServiceEvent(p, json, gcf).Ok? {
      var r, l := Rewritten(p, e).value, ServiceEvent(p, json, gcf).value;
      NoticeFields(p, e, payload, n, r);
      LegacyStorageEvent(p, json, gcf, l, n.bucket, n.objectName, generation);
      LegacyContextIsKept(p, json, gcf, l);
      SameType(change, r.ceType);
    }
  }

  lemma NoticeFields(p: Platform, e: CloudEvent, payload: Json, n: Notice, r: CloudEvent)
    requires IsCandidate(e) && p.parseJson(e.data.GetOr("{}")) == Ok(payload) && Carries(payload, n)
    requires Rewritten(p, e) == Ok(r)
    ensures r.source == BUCKETS + n.bucket && r.subject == Some(OBJECTS + n.objectName)
    ensures IsTypePair(n.eventType, r.ceType)
  {
    hide Carries, StorageEvent, IsForeign, Base64.Decoded, IsTypePair;
    CarriersAreNotForeign(payload, n);
    StorageEventFields(payload, n, e, Base64.Decoded(n.data).value);
  }
}
