/**
 * Events in the formats that predate CloudEvents. Every service has its own rewrite of the
 * common fields and of the data.
 */
module LegacyEvents {
  import opened Wrappers
  import opened JsonValues
  import opened CloudEvents
  import opened LegacyTypes
  import opened LegacyFields
  import opened LegacyNames
  import opened StorageEvents
  import opened MetadataRenames
  import opened Text

  /** The event for some common fields and data. */
  function LegacyEvent(p: Platform, gcf: Common, data: Json): Result<CloudEvent> {
    var ceType :- MapGCFTypeToCloudEventType(gcf.eventType);
    var time :- if gcf.timestamp == "" then Ok(None) else ParsedTime(p, gcf.timestamp);
    Ok(CloudEvent(gcf.eventId, gcf.source, ceType, DEFAULT_SPEC_VERSION, Some("application/json"),
                  None, if gcf.subject == "" then None else Some(gcf.subject), time,
                  Some(p.dumpJson(data))))
  }

  method ParseLegacyCommon(p: Platform, gcf: Common, data: Json) returns (r: Result<CloudEvent>)
    ensures r == LegacyEvent(p, gcf, data)
    ensures r.Ok? ==>
              && r.value.id == gcf.eventId && r.value.source == gcf.source
              && r.value.subject == (if gcf.subject == "" then None else Some(gcf.subject))
              && r.value.ceType == (if gcf.eventType in EVENT_TYPES then EVENT_TYPES[gcf.eventType]
                                    else gcf.eventType)
              && r.value.data == Some(p.dumpJson(data))
  {
    var ceType :- MapGCFTypeToCloudEventType(gcf.eventType);
    var event := NewEvent(gcf.eventId, gcf.source, ceType, DEFAULT_SPEC_VERSION);
    if gcf.timestamp != "" {
      var time :- p.parseTime(gcf.timestamp);
      event := event.(time := Some(time));
    }
    if gcf.subject != "" {
      event := event.(subject := Some(gcf.subject));
    }
    event := event.(dataContentType := Some("application/json"));
    event := event.(data := Some(p.dumpJson(data)));
    return Ok(event);
  }

  /** The common fields under another name, where the resource has the form that is looked for. */
  function Renamed(gcf: Common, name: Option<(string, string)>): Common {
    if name.None? then gcf else gcf.(source := name.value.0, subject := name.value.1)
  }

  // Cloud Storage

  method ParseLegacyStorage(p: Platform, json: Json, common: Common) returns (r: Result<CloudEvent>)
    requires json.Obj?
    ensures r == LegacyEvent(p, Renamed(common, StorageName(common.source)),
                             json.ValueOr("data", Null).value)
  {
    var gcf := common;
    var m := Groups(gcf.source, BUCKETS, "/" + OBJECTS);
    if m.Some? {
      gcf := gcf.(subject := OBJECTS + m.value.1);
      gcf := gcf.(source := BUCKETS + m.value.0);
      gcf := gcf.(subject := WithoutGeneration(gcf.subject));
    }
    r := ParseLegacyCommon(p, gcf, json.ValueOr("data", Null).value);
  }

  // Pub/Sub

  /** What a Pub/Sub message gets from the common fields. */
  function Stamps(gcf: Common): map<string, Json> {
    (if gcf.eventId == "" then map[] else map["messageId" := Str(gcf.eventId)]) +
    (if gcf.timestamp == "" then map[] else map["publishTime" := Str(gcf.timestamp)])
  }

  /** A message with its stamps; only an object or null can be stamped. */
  function Stamped(data: Json, stamps: map<string, Json>): Result<Json> {
    if stamps == map[] then Ok(data)
    else
      match data
      case Null => Ok(Obj(stamps))
      case Obj(fields) => Ok(Obj(fields + stamps))
      case _ => Thrown(JSON_ERROR)
  }

  function PubSubEvent(p: Platform, data: Json, gcf: Common): Result<CloudEvent> {
    var message :- Stamped(data, Stamps(gcf));
    LegacyEvent(p, gcf, Obj(map["message" := message]))
  }

  /** Stamping one key after the other. */
  function StampedInTurn(data: Json, gcf: Common): Result<Json> {
    var first :- if gcf.eventId == "" then Ok(data) else data.With("messageId", Str(gcf.eventId));
    if gcf.timestamp == "" then Ok(first) else first.With("publishTime", Str(gcf.timestamp))
  }

  lemma StampsInTurn(data: Json, gcf: Common)
    ensures StampedInTurn(data, gcf) == Stamped(data, Stamps(gcf))
  {
    var stamps := Stamps(gcf);
    if gcf.eventId != "" {
      assert "messageId" in stamps;
    }
    if gcf.timestamp != "" {
      assert "publishTime" in stamps;
    }
    if data.Obj? {
      assert StampedInTurn(data, gcf).value.fields == data.fields + stamps;
    } else if data.Null? && stamps != map[] {
      assert StampedInTurn(data, gcf).value.fields == stamps;
    }
  }

  method ParseLegacyPubSub(p: Platform, json: Json, gcf: Common) returns (r: Result<CloudEvent>)
    requires json.Obj?
    ensures r == PubSubEvent(p, json.ValueOr("data", Null).value, gcf)
  {
    hide LegacyEvent, Stamped, Stamps;
    StampsInTurn(json.ValueOr("data", Null).value, gcf);
    var message := json.ValueOr("data", Null).value;
    if gcf.eventId != "" {
      message :- message.With("messageId", Str(gcf.eventId));
    }
    if gcf.timestamp != "" {
      message :- message.With("publishTime", Str(gcf.timestamp));
    }
    r := ParseLegacyCommon(p, gcf, Obj(map["message" := message]));
  }

  // Firebase Realtime Database

  function DomainLocation(json: Json): Result<string>
    requires json.Obj?
  {
    if !json.Has("domain") then Thrown("Missing `domain` attribute for firebase database event")
    else
      var domain :- json.fields["domain"].Text();
      Location(domain)
  }

  function DatabaseEvent(p: Platform, json: Json, gcf: Common): Result<CloudEvent>
    requires json.Obj?
  {
    var location :- DomainLocation(json);
    LegacyEvent(p, Renamed(gcf, DatabaseName(location, gcf.source)),
                json.ValueOr("data", Null).value)
  }

  method ParseLegacyFirebaseDatabase(p: Platform, json: Json, common: Common)
    returns (r: Result<CloudEvent>)
    requires json.Obj?
    ensures r == DatabaseEvent(p, json, common)
  {
    var gcf := common;
    var location :- DomainLocation(json);
    var m := Groups(gcf.source, DATABASE, "/" + REFS);
    if m.Some? {
      gcf := gcf.(subject := REFS + m.value.1);
      gcf := gcf.(source := LOCATIONS + location + "/instances/" + m.value.0);
    }
    r := ParseLegacyCommon(p, gcf, json.ValueOr("data", Null).value);
  }

  // Firebase Authentication

  /** The new `data` of an authentication event. */
  function AuthData(data: Json): Result<Json>
    requires data.Has("metadata")
  {
    var metadata := data.fields["metadata"];
    if !metadata.Obj? then Ok(data)
    else
      var fields :- RenameAll(metadata.fields, RENAMES);
      Ok(Obj(data.fields["metadata" := Obj(fields)]))
  }

  const MISSING_DATA := "Missing `data` attribute for firebase auth event"
  const MISSING_METADATA := "Missing `metadata/data` attribute for firebase auth event"
  const MISSING_UID := "Missing `data/uid` attribute for firebase auth event"

  function AuthEvent(p: Platform, json: Json, gcf: Common): Result<CloudEvent> {
    if !json.Has("data") then Thrown(MISSING_DATA)
    else if !json.fields["data"].Has("metadata") then Thrown(MISSING_METADATA)
    else if GetNestedKey(json, ["data", "uid"]) == "" then Thrown(MISSING_UID)
    else
      var data :- AuthData(json.fields["data"]);
      LegacyEvent(p, gcf.(subject := "users/" + GetNestedKey(json, ["data", "uid"])), data)
  }

  method ParseLegacyFirebaseAuth(p: Platform, json: Json, common: Common)
    returns (r: Result<CloudEvent>)
    ensures r == AuthEvent(p, json, common)
  {
    hide LegacyEvent, RenameAll, GetNestedKey;
    var gcf := common;
    if !json.Has("data") { return Thrown(MISSING_DATA); }
    if !json.fields["data"].Has("metadata") { return Thrown(MISSING_METADATA); }
    var uid := GetNestedKey(json, ["data", "uid"]);
    if uid == "" { return Thrown(MISSING_UID); }
    gcf := gcf.(subject := "users/" + uid);

    var modified := json.fields["data"];
    var metadata :- RenameKeys(modified.fields["metadata"], RENAMES);
    modified := Obj(modified.fields["metadata" := metadata]);
    assert AuthData(json.fields["data"]) == Ok(modified) by {
      var fields := json.fields["data"].fields;
      assert fields["metadata" := fields["metadata"]] == fields;
    }
    r := ParseLegacyCommon(p, gcf, modified);
  }

  // Firestore

  method ParseLegacyFirestore(p: Platform, json: Json, common: Common)
    returns (r: Result<CloudEvent>)
    requires json.Obj?
    ensures r == LegacyEvent(p, Renamed(common, FirestoreName(common.resourceName)),
                             json.ValueOr("data", Null).value)
  {
    var gcf := common;
    var m := ThreeGroups(gcf.resourceName, PROJECTS, DATABASES, "/" + DOCUMENTS);
    if m.Some? {
      gcf := gcf.(source := FIRESTORE + PROJECTS + m.value.0 + DATABASES + m.value.1);
      gcf := gcf.(subject := DOCUMENTS + m.value.2);
    }
    r := ParseLegacyCommon(p, gcf, json.ValueOr("data", Null).value);
  }

  // Dispatch

  lemma CommonFieldsNeedAnObject(json: Json)
    ensures ParseLegacyCommonFields(json).Ok? ==> json.Obj?
  {
    assert !json.Obj? ==> GetAlternatives(json, CONTEXT_TYPE, "eventType").Thrown?;
  }

  /** The event for the service that the common fields name. */
  function ServiceEvent(p: Platform, json: Json, gcf: Common): Result<CloudEvent>
    requires json.Obj?
  {
    var data := json.ValueOr("data", Null).value;
    match gcf.service
    case "storage.googleapis.com" => LegacyEvent(p, Renamed(gcf, StorageName(gcf.source)), data)
    case "pubsub.googleapis.com" => PubSubEvent(p, data, gcf)
    case "firebasedatabase.googleapis.com" => DatabaseEvent(p, json, gcf)
    case "firebaseauth.googleapis.com" => AuthEvent(p, json, gcf)
    case "firestore.googleapis.com" =>
      LegacyEvent(p, Renamed(gcf, FirestoreName(gcf.resourceName)), data)
    case _ => LegacyEvent(p, gcf, json)
  }

  /** The event in a legacy JSON value. */
  function ReadLegacy(p: Platform, json: Json): Result<CloudEvent> {
    var gcf :- ParseLegacyCommonFields(json);
    CommonFieldsNeedAnObject(json);
    ServiceEvent(p, json, gcf)
  }

  function ReadLegacyText(p: Platform, text: string): Result<CloudEvent> {
    var json :- p.parseJson(text);
    ReadLegacy(p, json)
  }

  method ParseCloudEventLegacy(p: Platform, jsonString: string) returns (r: Result<CloudEvent>)
    ensures r == ReadLegacyText(p, jsonString)
  {
    hide ParseLegacyCommonFields, LegacyEvent, PubSubEvent, AuthEvent, DatabaseEvent,
         StorageName, FirestoreName;
    var json :- p.parseJson(jsonString);
    var gcf :- ParseLegacyCommonFields(json);
    CommonFieldsNeedAnObject(json);
    if gcf.service == "storage.googleapis.com" {
      r := ParseLegacyStorage(p, json, gcf);
    } else if gcf.service == "pubsub.googleapis.com" {
      r := ParseLegacyPubSub(p, json, gcf);
    } else if gcf.service == "firebasedatabase.googleapis.com" {
      r := ParseLegacyFirebaseDatabase(p, json, gcf);
    } else if gcf.service == "firebaseauth.googleapis.com" {
      r := ParseLegacyFirebaseAuth(p, json, gcf);
    } else if gcf.service == "firestore.googleapis.com" {
      r := ParseLegacyFirestore(p, json, gcf);
    } else {
      r := ParseLegacyCommon(p, gcf, json);
    }
  }

  // What holds of every legacy event

  /** What a service asks of the JSON value beside the common fields. */
  predicate ServiceAccepts(json: Json, gcf: Common)
    requires json.Obj?
  {
    var data := json.ValueOr("data", Null).value;
    match gcf.service
    case "pubsub.googleapis.com" =>
      data.Null? || data.Obj? || (gcf.eventId == "" && gcf.timestamp == "")
    case "firebasedatabase.googleapis.com" =>
      json.Has("domain") && json.fields["domain"].Str? && '.' in json.fields["domain"].s
    case "firebaseauth.googleapis.com" =>
      && data.Has("metadata") && Given(json, ["data", "uid"])
      && forall i :: 0 <= i < |RENAMES| ==>
           data.fields["metadata"].Has(RENAMES[i].0) ==>
             data.fields["metadata"].fields[RENAMES[i].0].Str?
    case _ => true
  }

  /** The type is known and the time, if there is one, is a time. */
  predicate CommonAccepted(p: Platform, gcf: Common) {
    && MapGCFTypeToCloudEventType(gcf.eventType).Ok?
    && (gcf.timestamp == "" || p.parseTime(gcf.timestamp).Ok?)
  }

  lemma LegacyEventAccepts(p: Platform, gcf: Common, data: Json)
    ensures LegacyEvent(p, gcf, data).Ok? <==> CommonAccepted(p, gcf)
  {
    hide MapGCFTypeToCloudEventType;
  }

  lemma AuthAccepts(json: Json, gcf: Common)
    requires json.Obj? && gcf.service == "firebaseauth.googleapis.com"
    ensures ServiceAccepts(json, gcf) <==>
            && json.Has("data") && json.fields["data"].Has("metadata")
            && GetNestedKey(json, ["data", "uid"]) != ""
            && AuthData(json.fields["data"]).Ok?
  {
    hide GetNestedKey, Named, RenameAll, IsRenaming, Unrelated;
    AlternativeOnlyWithoutContext(json, ["data", "uid"], "");
    NestedTextIsGiven(json, ["data", "uid"]);
    RenamesAreUnrelated();
    if json.Has("data") && json.fields["data"].Has("metadata")
       && json.fields["data"].fields["metadata"].Obj?
    {
      RenameAllIsExact(json.fields["data"].fields["metadata"].fields, RENAMES);
    }
  }

  lemma NestedTextIsGiven(json: Json, path: seq<string>)
    requires path != []
    ensures GetNestedKey(json, path) != "" <==> Given(json, path)
  {
    hide GetNestedKey, Named;
    if Given(json, path) {
      NestedKeyIsNamed(json, path, Named(json, path).value.s);
    } else if GetNestedKey(json, path) != "" {
      NestedKeyIsNamed(json, path, GetNestedKey(json, path));
    }
  }

  lemma DomainAccepts(json: Json)
    requires json.Obj?
    ensures DomainLocation(json).Ok? <==>
            json.Has("domain") && json.fields["domain"].Str? && '.' in json.fields["domain"].s
  {
    if json.Has("domain") && json.fields["domain"].Str? {
      LocationOfDomain(json.fields["domain"].s);
    }
  }

  lemma StampsAccept(gcf: Common, data: Json)
    ensures Stamped(data, Stamps(gcf)).Ok? <==>
            data.Null? || data.Obj? || (gcf.eventId == "" && gcf.timestamp == "")
  {
    assert gcf.eventId != "" ==> "messageId" in Stamps(gcf);
    assert gcf.timestamp != "" ==> "publishTime" in Stamps(gcf);
  }

  lemma ServiceAcceptance(p: Platform, json: Json, gcf: Common)
    requires json.Obj?
    ensures ServiceEvent(p, json, gcf).Ok? <==> CommonAccepted(p, gcf) && ServiceAccepts(json, gcf)
  {
    hide LegacyEvent, CommonAccepted, Stamped, Stamps, DomainLocation, AuthData, GetNestedKey,
         StorageName, FirestoreName, DatabaseName, ServiceAccepts;
    forall c: Common, data | c.eventType == gcf.eventType && c.timestamp == gcf.timestamp
      ensures LegacyEvent(p, c, data).Ok? <==> CommonAccepted(p, gcf)
    {
      LegacyEventAccepts(p, c, data);
      SameCommonAccepted(p, c, gcf);
    }
    ServiceCondition(json, gcf);
  }

  lemma SameCommonAccepted(p: Platform, c: Common, gcf: Common)
    requires c.eventType == gcf.eventType && c.timestamp == gcf.timestamp
    ensures CommonAccepted(p, c) <==> CommonAccepted(p, gcf)
  {
  }

  lemma ServiceCondition(json: Json, gcf: Common)
    requires json.Obj?
    ensures ServiceAccepts(json, gcf) <==>
            match gcf.service
            case "pubsub.googleapis.com" =>
              Stamped(json.ValueOr("data", Null).value, Stamps(gcf)).Ok?
            case "firebasedatabase.googleapis.com" => DomainLocation(json).Ok?
            case "firebaseauth.googleapis.com" =>
              && json.Has("data") && json.fields["data"].Has("metadata")
              && GetNestedKey(json, ["data", "uid"]) != "" && AuthData(json.fields["data"]).Ok?
            case _ => true
  {
    hide Stamped, Stamps, DomainLocation, AuthData, GetNestedKey;
    StampsAccept(gcf, json.ValueOr("data", Null).value);
    DomainAccepts(json);
    if gcf.service == "firebaseauth.googleapis.com" {
      AuthAccepts(json, gcf);
    }
  }

  /** Exactly which JSON values are read as legacy events. */
  lemma LegacyAcceptance(p: Platform, json: Json)
    ensures ReadLegacy(p, json).Ok? <==>
            && ParseLegacyCommonFields(json).Ok? && json.Obj?
            && CommonAccepted(p, ParseLegacyCommonFields(json).value)
            && ServiceAccepts(json, ParseLegacyCommonFields(json).value)
  {
    hide ParseLegacyCommonFields, ServiceEvent, CommonAccepted, ServiceAccepts;
    CommonFieldsNeedAnObject(json);
    if ParseLegacyCommonFields(json).Ok? {
      ServiceAcceptance(p, json, ParseLegacyCommonFields(json).value);
    }
  }

  /** The JSON value whose text is the payload. */
  function PayloadOf(json: Json, gcf: Common): Result<Json>
    requires json.Obj?
  {
    var data := json.ValueOr("data", Null).value;
    match gcf.service
    case "storage.googleapis.com" => Ok(data)
    case "pubsub.googleapis.com" =>
      var message :- Stamped(data, Stamps(gcf));
      Ok(Obj(map["message" := message]))
    case "firebasedatabase.googleapis.com" => Ok(data)
    case "firebaseauth.googleapis.com" =>
      if data.Has("metadata") then AuthData(data) else Thrown(MISSING_METADATA)
    case "firestore.googleapis.com" => Ok(data)
    case _ => Ok(json)
  }

  /** Every service makes its event from common fields that differ in source and subject only. */
  lemma FinalFields(p: Platform, json: Json, gcf: Common) returns (final: Common, data: Json)
    requires json.Obj? && ServiceEvent(p, json, gcf).Ok?
    ensures ServiceEvent(p, json, gcf) == LegacyEvent(p, final, data)
    ensures PayloadOf(json, gcf) == Ok(data)
    ensures final == gcf.(source := final.source, subject := final.subject)
    ensures match gcf.service
            case "storage.googleapis.com" => final == Renamed(gcf, StorageName(gcf.source))
            case "firestore.googleapis.com" => final == Renamed(gcf, FirestoreName(gcf.resourceName))
            case "firebasedatabase.googleapis.com" =>
              && DomainLocation(json).Ok?
              && final == Renamed(gcf, DatabaseName(DomainLocation(json).value, gcf.source))
            case "firebaseauth.googleapis.com" =>
              final == gcf.(subject := "users/" + GetNestedKey(json, ["data", "uid"]))
            case _ => final == gcf
  {
    hide LegacyEvent, Stamped, Stamps, DomainLocation, AuthData, GetNestedKey,
         StorageName, FirestoreName, DatabaseName;
    final, data := gcf, json.ValueOr("data", Null).value;
    match gcf.service
    case "storage.googleapis.com" => final := Renamed(gcf, StorageName(gcf.source));
    case "pubsub.googleapis.com" => data := Obj(map["message" := Stamped(data, Stamps(gcf)).value]);
    case "firebasedatabase.googleapis.com" =>
      final := Renamed(gcf, DatabaseName(DomainLocation(json).value, gcf.source));
    case "firebaseauth.googleapis.com" =>
      final := gcf.(subject := "users/" + GetNestedKey(json, ["data", "uid"]));
      data := AuthData(json.fields["data"]).value;
    case "firestore.googleapis.com" => final := Renamed(gcf, FirestoreName(gcf.resourceName));
    case _ => data := json;
  }

  /** The context of the event is that of the common fields. */
  lemma LegacyContextIsKept(p: Platform, json: Json, gcf: Common, e: CloudEvent)
    requires json.Obj? && ServiceEvent(p, json, gcf) == Ok(e)
    ensures e.id == gcf.eventId && e.specVersion == "1.0"
    ensures MapGCFTypeToCloudEventType(gcf.eventType) == Ok(e.ceType)
    ensures if gcf.eventType in EVENT_TYPES then e.ceType == EVENT_TYPES[gcf.eventType]
            else e.ceType == gcf.eventType && StartsWith(gcf.eventType, "google.storage.object.")
    ensures if gcf.timestamp == "" then e.time.None?
            else e.time.Some? && p.parseTime(gcf.timestamp) == Ok(e.time.value)
    ensures e.dataContentType == Some("application/json") && e.data.Some?
  {
    var final, data := FinalFields(p, json, gcf);
    LegacyEventContext(p, final, data, e);
    TypeIsMapped(gcf.eventType);
    hide MapGCFTypeToCloudEventType, ServiceEvent, LegacyEvent, StartsWith;
  }

  lemma LegacyEventContext(p: Platform, final: Common, data: Json, e: CloudEvent)
    requires LegacyEvent(p, final, data) == Ok(e)
    ensures e.id == final.eventId && e.specVersion == DEFAULT_SPEC_VERSION
    ensures MapGCFTypeToCloudEventType(final.eventType) == Ok(e.ceType)
    ensures if final.timestamp == "" then e.time.None?
            else ParsedTime(p, final.timestamp) == Ok(e.time)
    ensures e.dataContentType == Some("application/json") && e.data.Some?
  {
    hide MapGCFTypeToCloudEventType, ParsedTime;
  }

  lemma TypeIsMapped(eventType: string)
    ensures forall ceType :: MapGCFTypeToCloudEventType(eventType) == Ok(ceType) ==>
              if eventType in EVENT_TYPES then ceType == EVENT_TYPES[eventType]
              else ceType == eventType && StartsWith(eventType, "google.storage.object.")
    ensures eventType !in EVENT_TYPES && !StartsWith(eventType, "google.storage.object.") ==>
              MapGCFTypeToCloudEventType(eventType).Thrown?
  {
    hide StartsWith;
  }

  /** The event names the resource: all of it, but for one generation at the end. */
  ghost predicate NamesResource(e: CloudEvent, resource: string) {
    || e.source == resource
    || (e.subject.Some? && resource == e.source + "/" + e.subject.value)
    || (e.subject.Some?
        && exists g :: IsDigits(g) && resource == e.source + "/" + e.subject.value + "#" + g)
  }

  /**
   * Nothing is lost of the resource but one generation of a storage object. (A database event
   * has its location put in; `DatabaseNameIsInjective` is about that.)
   */
  lemma LegacyResourceIsKept(p: Platform, json: Json, gcf: Common, e: CloudEvent)
    requires json.Obj? && ServiceEvent(p, json, gcf) == Ok(e)
    requires gcf.source == "//" + gcf.service + "/" + gcf.resourceName
    requires gcf.service != "firebasedatabase.googleapis.com"
    ensures NamesResource(e, gcf.source)
  {
    var final, data := FinalFields(p, json, gcf);
    LegacyEventNames(p, final, data, e);
    hide ServiceEvent, StorageName, FirestoreName, LegacyEvent, NamesResource;
    if gcf.service == "storage.googleapis.com" {
      StorageResourceIsKept(gcf, e);
    } else if gcf.service == "firestore.googleapis.com" {
      FirestoreResourceIsKept(gcf, e);
    } else {
      SameSource(e, gcf.source);
    }
  }

  lemma SameSource(e: CloudEvent, resource: string)
    requires e.source == resource
    ensures NamesResource(e, resource)
  {
  }

  lemma LegacyEventNames(p: Platform, final: Common, data: Json, e: CloudEvent)
    requires LegacyEvent(p, final, data) == Ok(e)
    ensures e.source == final.source
    ensures e.subject == if final.subject == "" then None else Some(final.subject)
  {
    hide MapGCFTypeToCloudEventType, ParsedTime;
  }

  lemma StorageResourceIsKept(gcf: Common, e: CloudEvent)
    requires var final := Renamed(gcf, StorageName(gcf.source));
             && e.source == final.source
             && e.subject == if final.subject == "" then None else Some(final.subject)
    ensures NamesResource(e, gcf.source)
  {
    hide StorageName;
    if StorageName(gcf.source).Some? {
      var (source, subject) := StorageName(gcf.source).value;
      StorageNameLosesGenerationOnly(gcf.source, source, subject);
      assert |OBJECTS| > 0;
    }
  }

  lemma FirestoreResourceIsKept(gcf: Common, e: CloudEvent)
    requires gcf.source == "//" + gcf.service + "/" + gcf.resourceName
    requires gcf.service == "firestore.googleapis.com"
    requires var final := Renamed(gcf, FirestoreName(gcf.resourceName));
             && e.source == final.source
             && e.subject == if final.subject == "" then None else Some(final.subject)
    ensures NamesResource(e, gcf.source)
  {
    if FirestoreName(gcf.resourceName).Some? {
      var (source, subject) := FirestoreName(gcf.resourceName).value;
      FirestoreSubject(gcf.resourceName);
      hide FirestoreName;
      FirestoreNameLosesNothing(gcf.resourceName, source, subject);
      assert gcf.source == FIRESTORE + gcf.resourceName;
    }
  }

  lemma FirestoreSubject(resource: string)
    requires FirestoreName(resource).Some?
    ensures FirestoreName(resource).value.1 != ""
  {
    hide ThreeGroups;
    assert |DOCUMENTS| > 0;
  }

  /** A storage event with a full resource name is delivered under its bucket and object. */
  lemma LegacyStorageEvent(p: Platform, json: Json, gcf: Common, e: CloudEvent,
                           bucket: string, name: string, generation: string)
    requires json.Obj? && ServiceEvent(p, json, gcf) == Ok(e)
    requires gcf.service == "storage.googleapis.com"
    requires IsSegment(bucket) && IsDigits(generation) && '\n' !in name && '\r' !in name
    requires gcf.source == BUCKETS + bucket + ("/" + OBJECTS) + (name + "#" + generation)
    ensures e.source == BUCKETS + bucket && e.subject == Some(OBJECTS + name)
  {
    StorageNameOfResource(bucket, name, generation);
    hide MapGCFTypeToCloudEventType, ParsedTime, StorageName;
    assert OBJECTS + name != "";
  }

  /** The key is one that a message gets from the common fields. */
  predicate IsStamped(gcf: Common, key: string) {
    (key == "messageId" && gcf.eventId != "") || (key == "publishTime" && gcf.timestamp != "")
  }

  /** The message that a Pub/Sub event wraps is the data, stamped and otherwise untouched. */
  lemma PubSubPayload(p: Platform, data: Json, gcf: Common, e: CloudEvent) returns (message: Json)
    requires PubSubEvent(p, data, gcf) == Ok(e)
    ensures e.data == Some(p.dumpJson(Obj(map["message" := message])))
    ensures gcf.eventId != "" ==> message.At("messageId") == Ok(Str(gcf.eventId))
    ensures gcf.timestamp != "" ==> message.At("publishTime") == Ok(Str(gcf.timestamp))
    ensures forall key :: !IsStamped(gcf, key) ==> message.At(key) == data.At(key)
    ensures gcf.eventId == "" && gcf.timestamp == "" ==> message == data
  {
    message := Stamped(data, Stamps(gcf)).value;
    StampedKeys(data, gcf);
    hide Stamped, Stamps, MapGCFTypeToCloudEventType, ParsedTime;
  }

  lemma StampedKeys(data: Json, gcf: Common)
    requires Stamped(data, Stamps(gcf)).Ok?
    ensures var message := Stamped(data, Stamps(gcf)).value;
            && (gcf.eventId != "" ==> message.At("messageId") == Ok(Str(gcf.eventId)))
            && (gcf.timestamp != "" ==> message.At("publishTime") == Ok(Str(gcf.timestamp)))
            && (forall key :: !IsStamped(gcf, key) ==> message.At(key) == data.At(key))
            && (gcf.eventId == "" && gcf.timestamp == "" ==> message == data)
  {
    var stamps := Stamps(gcf);
    assert gcf.eventId != "" ==> "messageId" in stamps && stamps["messageId"] == Str(gcf.eventId);
    assert gcf.timestamp != "" ==>
        "publishTime" in stamps && stamps["publishTime"] == Str(gcf.timestamp);
    assert forall key :: key in stamps ==> IsStamped(gcf, key);
  }

  /**
   * An authentication event is about its user, and its payload is the data with the metadata
   * renamed and everything else untouched.
   */
  lemma AuthPayload(p: Platform, json: Json, gcf: Common, e: CloudEvent) returns (data: Json)
    requires AuthEvent(p, json, gcf) == Ok(e)
    ensures e.data == Some(p.dumpJson(data)) && e.source == gcf.source
    ensures exists uid :: Named(json, ["data", "uid"]) == Some(Str(uid)) && e.subject == Some("users/" + uid)
    ensures json.Has("data") && json.fields["data"].Has("metadata") && data.Has("metadata")
    ensures forall key :: key != "metadata" ==> data.At(key) == json.fields["data"].At(key)
    ensures var before, after := json.fields["data"].fields["metadata"], data.fields["metadata"];
            if before.Obj? then after.Obj? && IsRenaming(before.fields, RENAMES, after.fields)
            else after == before
  {
    hide MapGCFTypeToCloudEventType, ParsedTime, GetNestedKey, Named, RenameAll, IsRenaming, Unrelated;
    var uid := GetNestedKey(json, ["data", "uid"]);
    NestedKeyIsNamed(json, ["data", "uid"], uid);
    data := AuthData(json.fields["data"]).value;
    RenamesAreUnrelated();
    if json.fields["data"].fields["metadata"].Obj? {
      RenameAllIsExact(json.fields["data"].fields["metadata"].fields, RENAMES);
    }
  }

  /**
   * The type of the event: what the table says for the types in it, the same type for the other
   * storage types, and an error for the rest.
   */
  lemma TypeIsTranslated(p: Platform, json: Json, gcf: Common)
    requires json.Obj?
    ensures forall e :: ServiceEvent(p, json, gcf) == Ok(e) ==>
              if gcf.eventType in EVENT_TYPES then e.ceType == EVENT_TYPES[gcf.eventType]
              else e.ceType == gcf.eventType && StartsWith(gcf.eventType, "google.storage.object.")
    ensures gcf.eventType !in EVENT_TYPES && !StartsWith(gcf.eventType, "google.storage.object.") ==>
              ServiceEvent(p, json, gcf).Thrown?
  {
    if ServiceEvent(p, json, gcf).Ok? {
      LegacyContextIsKept(p, json, gcf, ServiceEvent(p, json, gcf).value);
    }
    hide ServiceEvent, StartsWith;
  }

  /** The same from the JSON value: the type is looked for in the context, then at the top. */
  lemma LegacyTypeIsTranslated(p: Platform, json: Json, eventType: string, e: CloudEvent)
    requires ReadLegacy(p, json) == Ok(e)
    requires FieldIs(json, ["context", "eventType"], "eventType", eventType)
    ensures if eventType in EVENT_TYPES then e.ceType == EVENT_TYPES[eventType]
            else e.ceType == eventType && StartsWith(eventType, "google.storage.object.")
  {
    hide ParseLegacyCommonFields, ServiceEvent, StartsWith, FieldIs;
    var gcf := ParseLegacyCommonFields(json).value;
    CommonFieldsNeedAnObject(json);
    CommonFieldsAreExact(json, gcf);
    FieldIsOne(json, ["context", "eventType"], "eventType", eventType, gcf.eventType);
    TypeIsTranslated(p, json, gcf);
  }

  lemma FieldIsOne(json: Json, primary: seq<string>, alternative: string, a: string, b: string)
    requires FieldIs(json, primary, alternative, a) && FieldIs(json, primary, alternative, b)
    ensures a == b
  {
    hide Named;
  }

  /** The data of the JSON value, or null. */
  function DataOrNull(json: Json): Json {
    if json.Has("data") then json.fields["data"] else Null
  }

  /**
   * The payload of services whose data is not edited is the data; that of services that are not
   * known is the whole JSON value. Neither of the latter kind gets a subject.
   */
  lemma PlainPayload(p: Platform, json: Json, gcf: Common, e: CloudEvent)
    requires json.Obj? && ServiceEvent(p, json, gcf) == Ok(e)
    ensures gcf.service == "storage.googleapis.com" || gcf.service == "firestore.googleapis.com"
            || gcf.service == "firebasedatabase.googleapis.com" ==>
              e.data == Some(p.dumpJson(DataOrNull(json)))
    ensures gcf.service !in {"storage.googleapis.com", "firestore.googleapis.com",
                             "firebasedatabase.googleapis.com", "pubsub.googleapis.com",
                             "firebaseauth.googleapis.com"} ==>
              && e.data == Some(p.dumpJson(json)) && e.source == gcf.source
              && (gcf.subject == "" ==> e.subject == None)
    ensures e.dataSchema == None
  {
    var final, data := FinalFields(p, json, gcf);
    LegacyEventNames(p, final, data, e);
    LegacyEventData(p, final, data, e);
    hide ServiceEvent, LegacyEvent, StorageName, FirestoreName, DatabaseName, DomainLocation,
         GetNestedKey, AuthData, Stamped, Stamps;
  }

  lemma LegacyEventData(p: Platform, final: Common, data: Json, e: CloudEvent)
    requires LegacyEvent(p, final, data) == Ok(e)
    ensures e.data == Some(p.dumpJson(data)) && e.dataSchema == None
  {
    hide MapGCFTypeToCloudEventType, ParsedTime;
  }

  /** A database event is delivered under its location and instance, and its reference. */
  lemma LegacyDatabaseEvent(p: Platform, json: Json, gcf: Common, domain: string,
                            instance: string, ref: string)
    requires gcf.service == "firebasedatabase.googleapis.com"
    requires json.At("domain") == Ok(Str(domain)) && IsSegment(instance) && IsLine(ref)
    requires gcf.source == "//firebasedatabase.googleapis.com/projects/_/instances/" + instance
                           + ("/" + "refs/") + ref
    ensures forall e :: ServiceEvent(p, json, gcf) == Ok(e) ==>
              && Location(domain).Ok?
              && e.source == "//firebasedatabase.googleapis.com/projects/_/locations/"
                             + Location(domain).value + "/instances/" + instance
              && e.subject == Some("refs/" + ref)
  {
    hide MapGCFTypeToCloudEventType, ParsedTime, DatabaseName, Location;
    if Location(domain).Ok? {
      DatabaseNameOfResource(Location(domain).value, instance, ref);
    }
    assert "refs/" + ref != "";
  }

  /** A Firestore event is delivered under its database and its document. */
  lemma LegacyFirestoreEvent(p: Platform, json: Json, gcf: Common, project: string,
                             database: string, document: string)
    requires json.Obj? && gcf.service == "firestore.googleapis.com"
    requires IsSegment(project) && IsSegment(database) && IsLine(document)
    requires gcf.resourceName ==
             "projects/" + project + ("/databases/" + database + ("/" + "documents/") + document)
    ensures forall e :: ServiceEvent(p, json, gcf) == Ok(e) ==>
              && e.source == "//" + "firestore.googleapis.com" + "/" + "projects/" + project
                             + "/databases/" + database
              && e.subject == Some("documents/" + document)
  {
    hide MapGCFTypeToCloudEventType, ParsedTime, FirestoreName;
    FirestoreNameOfResource(project, database, document);
    assert "documents/" + document != "";
  }

  /** The event has the source and the subject that the name gives, or else the common ones. */
  ghost predicate HasName(e: CloudEvent, name: Option<(string, string)>, source: string) {
    match name
    case Some((s, subject)) => e.source == s && e.subject == Some(subject)
    case None => e.source == source && e.subject == None
  }

  /** A storage, Firestore or database event is named by its resource if that has the right form. */
  lemma EventIsNamed(p: Platform, json: Json, gcf: Common, e: CloudEvent)
    requires json.Obj? && ServiceEvent(p, json, gcf) == Ok(e) && gcf.subject == ""
    ensures gcf.service == "storage.googleapis.com" ==>
              HasName(e, StorageName(gcf.source), gcf.source)
    ensures gcf.service == "firestore.googleapis.com" ==>
              HasName(e, FirestoreName(gcf.resourceName), gcf.source)
    ensures gcf.service == "firebasedatabase.googleapis.com" ==>
              && DomainLocation(json).Ok?
              && HasName(e, DatabaseName(DomainLocation(json).value, gcf.source), gcf.source)
  {
    var final, data := FinalFields(p, json, gcf);
    LegacyEventNames(p, final, data, e);
    hide ServiceEvent, LegacyEvent, GetNestedKey, StorageName, FirestoreName, DatabaseName,
         DomainLocation;
    if gcf.service == "storage.googleapis.com" && StorageName(gcf.source).Some? {
      var (source, subject) := StorageName(gcf.source).value;
      StorageNameLosesGenerationOnly(gcf.source, source, subject);
      assert |OBJECTS| > 0;
    }
    if gcf.service == "firestore.googleapis.com" && FirestoreName(gcf.resourceName).Some? {
      FirestoreSubject(gcf.resourceName);
    }
    if gcf.service == "firebasedatabase.googleapis.com"
       && DatabaseName(DomainLocation(json).value, gcf.source).Some? {
      DatabaseSubject(DomainLocation(json).value, gcf.source);
    }
  }

  lemma DatabaseSubject(location: string, source: string)
    requires DatabaseName(location, source).Some?
    ensures DatabaseName(location, source).value.1 != ""
  {
    hide Groups;
    assert |REFS| > 0;
  }
}
