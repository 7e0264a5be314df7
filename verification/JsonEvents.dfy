/** Events in the CloudEvents JSON format: one object, or an array of them. */
module JsonEvents {
  import opened Wrappers
  import opened JsonValues
  import opened CloudEvents
  import StorageEvents
  import Base64

  /** The JSON object writes the optional attribute under `key`, and only as a text. */
  predicate Writes(j: Json, key: string, value: Option<string>) {
    match value
    case None => !j.Has(key)
    case Some(text) => j.Has(key) && j.fields[key] == Str(text)
  }

  /**
   * The JSON object carries the payload: an object under `data` stands for its own text, a text
   * for itself, and `data_base64` for the bytes that it encodes.
   */
  predicate WritesData(p: Platform, j: Json, data: Option<string>) {
    if j.Has("data") then
      match j.fields["data"]
      case Obj(_) => data == Some(p.dumpJson(j.fields["data"]))
      case Str(text) => data == Some(text)
      case _ => false
    else if j.Has("data_base64") then
      && j.fields["data_base64"].Str?
      && data.Some? && Base64.Decoded(j.fields["data_base64"].s) == Ok(data.value)
    else data.None?
  }

  /** The JSON object is a form of message `m` (CloudEvents JSON Event Format 1.0, section 3). */
  predicate IsFormOf(p: Platform, j: Json, m: Message) {
    && Writes(j, "id", Some(m.id))
    && Writes(j, "source", Some(m.source))
    && Writes(j, "type", Some(m.ceType))
    && Writes(j, "specversion", m.specVersion)
    && Writes(j, "datacontenttype", m.dataContentType)
    && Writes(j, "dataschema", m.dataSchema)
    && Writes(j, "subject", m.subject)
    && Writes(j, "time", m.time)
    && WritesData(p, j, m.data)
  }

  function OptionalText(j: Json, key: string): Result<Option<string>> {
    if !j.Has(key) then Ok(None)
    else
      var text :- j.fields[key].Text();
      Ok(Some(text))
  }

  function DataOf(p: Platform, j: Json): Result<Option<string>> {
    if j.Has("data") then
      if j.fields["data"].Obj? then Ok(Some(p.dumpJson(j.fields["data"])))
      else OptionalText(j, "data")
    else if j.Has("data_base64") then
      var encoded :- j.fields["data_base64"].Text();
      var data :- Base64.Decoded(encoded);
      Ok(Some(data))
    else Ok(None)
  }

  const MISSING_FIELDS := "JSON message missing `id`, `source`, and/or `type` fields"
  const NO_ARRAY := "ParseCloudEventJsonBatch - the input string must be a JSON array"

  /** The attributes in a JSON value, as a message without its payload. */
  function AttributesOf(j: Json): Result<Message> {
    if !j.Has("id") || !j.Has("source") || !j.Has("type") then Thrown(MISSING_FIELDS)
    else
      var id :- j.fields["id"].Text();
      var source :- j.fields["source"].Text();
      var ceType :- j.fields["type"].Text();
      var specVersion :- OptionalText(j, "specversion");
      var dataContentType :- OptionalText(j, "datacontenttype");
      var dataSchema :- OptionalText(j, "dataschema");
      var subject :- OptionalText(j, "subject");
      var time :- OptionalText(j, "time");
      Ok(Message(id, source, ceType, specVersion, dataContentType, dataSchema, subject, time, None))
  }

  /** The message that a JSON value is a form of, if there is one. */
  function MessageOf(p: Platform, j: Json): Result<Message> {
    var m :- AttributesOf(j);
    var data :- DataOf(p, j);
    Ok(m.(data := data))
  }

  lemma TextIsWritten(j: Json, key: string, v: Option<string>)
    ensures Writes(j, key, v) <==> OptionalText(j, key) == Ok(v)
    ensures v.Some? ==>
              (Writes(j, key, v) <==> j.Has(key) && j.fields[key].Text() == Ok(v.value))
  {
  }

  lemma DataIsWritten(p: Platform, j: Json, v: Option<string>)
    ensures WritesData(p, j, v) <==> DataOf(p, j) == Ok(v)
  {
    hide Base64.Decoded;
  }

  /** Reading finds a message exactly when the JSON value is a form of it. */
  lemma ReadsExactlyForms(p: Platform, j: Json, m: Message)
    ensures IsFormOf(p, j, m) <==> MessageOf(p, j) == Ok(m)
  {
    hide WritesData, DataOf, Writes, OptionalText;
    TextIsWritten(j, "id", Some(m.id));
    TextIsWritten(j, "source", Some(m.source));
    TextIsWritten(j, "type", Some(m.ceType));
    TextIsWritten(j, "specversion", m.specVersion);
    TextIsWritten(j, "datacontenttype", m.dataContentType);
    TextIsWritten(j, "dataschema", m.dataSchema);
    TextIsWritten(j, "subject", m.subject);
    TextIsWritten(j, "time", m.time);
    DataIsWritten(p, j, m.data);
  }

  /** The event in a JSON value. The time is read before the payload. */
  function ReadValue(p: Platform, j: Json): Result<CloudEvent> {
    var m :- AttributesOf(j);
    var e :- Meaning(p, m);
    var data :- DataOf(p, j);
    Ok(e.(data := data))
  }

  /** The event has the text of the member, or nothing if the member is not there. */
  predicate IsFrom(j: Json, key: string, value: Option<string>) {
    if j.Has(key) then value.Some? && j.fields[key] == Str(value.value) else value == None
  }

  /** Each attribute of `e` is that of the member with its name. */
  predicate IsToldBy(p: Platform, j: Json, e: CloudEvent) {
    && IsFrom(j, "id", Some(e.id)) && IsFrom(j, "source", Some(e.source))
    && IsFrom(j, "type", Some(e.ceType))
    && (if j.Has("specversion") then j.fields["specversion"] == Str(e.specVersion)
        else e.specVersion == "1.0")
    && IsFrom(j, "datacontenttype", e.dataContentType)
    && IsFrom(j, "dataschema", e.dataSchema)
    && IsFrom(j, "subject", e.subject)
    && (if j.Has("time")
        then j.fields["time"].Str? && e.time.Some?
             && p.parseTime(j.fields["time"].s) == Ok(e.time.value)
        else e.time == None)
    && (if j.Has("data") && j.fields["data"].Obj? then e.data == Some(p.dumpJson(j.fields["data"]))
        else if j.Has("data") then e.data.Some? && j.fields["data"] == Str(e.data.value)
        else if j.Has("data_base64")
        then j.fields["data_base64"].Str? && e.data.Some?
             && Base64.Decoded(j.fields["data_base64"].s) == Ok(e.data.value)
        else e.data == None)
  }

  /** A JSON value is read as exactly the event that its members tell. */
  lemma ValueIsTold(p: Platform, j: Json, e: CloudEvent)
    ensures ReadValue(p, j) == Ok(e) <==> IsToldBy(p, j, e)
  {
    hide Base64.Decoded;
  }

  /** Only an array is a batch. */
  lemma OnlyArraysAreBatches(p: Platform, text: string)
    ensures ReadBatch(p, text).Ok? ==> p.parseJson(text).Ok? && p.parseJson(text).value.Arr?
  {
  }

  /** A form of a message is read as what the message means. */
  lemma FormIsMeant(p: Platform, j: Json, m: Message)
    requires MessageOf(p, j) == Ok(m)
    ensures ReadValue(p, j) == Meaning(p, m)
  {
    hide DataOf, AttributesOf;
  }

  /** The event in a text that holds one JSON object, with storage notifications unwrapped. */
  function ReadText(p: Platform, text: string): Result<CloudEvent> {
    var j :- p.parseJson(text);
    var e :- ReadValue(p, j);
    StorageEvents.Rewritten(p, e)
  }

  /** The events of the array elements, in order; an error in one is an error of all. */
  function ReadValues(p: Platform, items: seq<Json>): Result<seq<CloudEvent>> {
    if items == [] then Ok([])
    else
      var last := |items| - 1;
      var done :- ReadValues(p, items[..last]);
      var e :- ReadValue(p, items[last]);
      Ok(done + [e])
  }

  lemma ReadOneMore(p: Platform, items: seq<Json>, i: nat)
    requires i < |items| && ReadValues(p, items[..i]).Ok?
    ensures var e := ReadValue(p, items[i]);
            && (e.Ok? ==> ReadValues(p, items[..i + 1]) ==
                            Ok(ReadValues(p, items[..i]).value + [e.value]))
            && (e.Thrown? ==> ReadValues(p, items) == Thrown(e.what))
    decreases |items|
  {
    hide ReadValue;
    assert items[..i + 1][..i] == items[..i];
    if i + 1 == |items| {
      assert items[..i + 1] == items;
    } else {
      var most := items[..|items| - 1];
      assert most[..i] == items[..i] && most[..i + 1] == items[..i + 1];
      ReadOneMore(p, most, i);
    }
  }

  /** `events` are the readings of `items`, one by one. */
  ghost predicate Elementwise(p: Platform, items: seq<Json>, events: seq<CloudEvent>) {
    |events| == |items| && forall i :: 0 <= i < |items| ==> ReadValue(p, items[i]) == Ok(events[i])
  }

  lemma {:induction false} ReadsElementwise(p: Platform, items: seq<Json>, events: seq<CloudEvent>)
    ensures ReadValues(p, items) == Ok(events) <==> Elementwise(p, items, events)
  {
    hide ReadValue;
    if items != [] {
      var last := |items| - 1;
      if |events| == |items| {
        ReadsElementwise(p, items[..last], events[..last]);
        assert events == events[..last] + [events[last]];
      }
      if ReadValues(p, items[..last]).Ok? {
        ReadsElementwise(p, items[..last], ReadValues(p, items[..last]).value);
      }
    }
  }

  function ReadBatch(p: Platform, text: string): Result<seq<CloudEvent>> {
    var j :- p.parseJson(text);
    if j.Arr? then ReadValues(p, j.items) else Thrown(NO_ARRAY)
  }

  /** The last step of reading a value: the payload, from `data` or from `data_base64`. */
  method ParseData(p: Platform, json: Json) returns (r: Result<Option<string>>)
    ensures r == DataOf(p, json)
  {
    hide Base64.Decoded;
    if json.Has("data") {
      var d := json.fields["data"];
      if d.Obj? { return Ok(Some(p.dumpJson(d))); }
      var text :- d.Text();
      return Ok(Some(text));
    } else if json.Has("data_base64") {
      var encoded :- json.fields["data_base64"].Text();
      var data :- Base64.Base64Decode(encoded);
      return Ok(Some(data));
    }
    return Ok(None);
  }

  method ParseCloudEventJsonValue(p: Platform, json: Json) returns (r: Result<CloudEvent>)
    ensures r == ReadValue(p, json)
    ensures r.Ok? ==> IsToldBy(p, json, r.value)
  {
    hide IsToldBy;
    hide DataOf;
    if !json.Has("id") || !json.Has("source") || !json.Has("type") { return Thrown(MISSING_FIELDS); }
    var id :- json.fields["id"].Text();
    var source :- json.fields["source"].Text();
    var ceType :- json.fields["type"].Text();
    var specVersion :- json.TextOr("specversion", DEFAULT_SPEC_VERSION);
    var event := NewEvent(id, source, ceType, specVersion);
    if json.Has("datacontenttype") {
      var text :- json.fields["datacontenttype"].Text();
      event := event.(dataContentType := Some(text));
    }
    if json.Has("dataschema") {
      var text :- json.fields["dataschema"].Text();
      event := event.(dataSchema := Some(text));
    }
    if json.Has("subject") {
      var text :- json.fields["subject"].Text();
      event := event.(subject := Some(text));
    }
    if json.Has("time") {
      var text :- json.fields["time"].Text();
      var time :- p.parseTime(text);
      event := event.(time := Some(time));
    }
    var data :- ParseData(p, json);
    event := event.(data := data);
    ValueIsTold(p, json, event);
    return Ok(event);
  }

  method ParseCloudEventJson(p: Platform, jsonString: string) returns (r: Result<CloudEvent>)
    ensures r == ReadText(p, jsonString)
  {
    var json :- p.parseJson(jsonString);
    var event :- ParseCloudEventJsonValue(p, json);
    r := StorageEvents.ParseCloudEventStorage(p, event);
  }

  method ParseCloudEventJsonBatch(p: Platform, jsonString: string)
    returns (r: Result<seq<CloudEvent>>)
    ensures r == ReadBatch(p, jsonString)
  {
    hide ReadValue, StorageEvents.Rewritten;
    var json :- p.parseJson(jsonString);
    if !json.Arr? { return Thrown(NO_ARRAY); }
    var events: seq<CloudEvent> := [];
    for i := 0 to |json.items|
      invariant ReadValues(p, json.items[..i]) == Ok(events)
    {
      var event := ParseCloudEventJsonValue(p, json.items[i]);
      ReadOneMore(p, json.items, i);
      if event.Thrown? { return Thrown(event.what); }
      events := events + [event.value];
    }
    assert json.items[..|json.items|] == json.items;
    return Ok(events);
  }

  /** A carrier for the payload in the JSON format. */
  datatype Carrier = NoData | Quoted(text: string) | Inline(fields: map<string, Json>)
                   | InBase64(encoded: string)

  /** The payload that the carrier stands for. */
  function Carried(p: Platform, c: Carrier): Result<Option<string>> {
    match c
    case NoData => Ok(None)
    case Quoted(text) => Ok(Some(text))
    case Inline(fields) => Ok(Some(p.dumpJson(Obj(fields))))
    case InBase64(encoded) => var data :- Base64.Decoded(encoded); Ok(Some(data))
  }

  function PutData(fields: map<string, Json>, c: Carrier): map<string, Json> {
    match c
    case NoData => fields
    case Quoted(text) => fields["data" := Str(text)]
    case Inline(inner) => fields["data" := Obj(inner)]
    case InBase64(encoded) => fields["data_base64" := Str(encoded)]
  }

  function Attributes(m: Message): seq<(string, Option<string>)> {
    [("id", Some(m.id)), ("source", Some(m.source)), ("type", Some(m.ceType)),
     ("specversion", m.specVersion), ("datacontenttype", m.dataContentType),
     ("dataschema", m.dataSchema), ("subject", m.subject), ("time", m.time)]
  }

  function TextMembers(fields: map<string, string>): map<string, Json> {
    map name | name in fields :: Str(fields[name])
  }

  /** The JSON object for a message, with its payload in the carrier `c`. */
  function FormOf(m: Message, c: Carrier): Json {
    Obj(PutData(TextMembers(Fields(Attributes(m))), c))
  }

  lemma AttributesWritten(m: Message, i: nat)
    requires i < |Attributes(m)|
    ensures Writes(Obj(TextMembers(Fields(Attributes(m)))), Attributes(m)[i].0, Attributes(m)[i].1)
    ensures Holds(Fields(Attributes(m)), "data", None)
    ensures Holds(Fields(Attributes(m)), "data_base64", None)
  {
    FieldsHold(Attributes(m), i);
    OnlyNamed(Attributes(m), "data");
    OnlyNamed(Attributes(m), "data_base64");
  }

  lemma DataWritten(p: Platform, fields: map<string, Json>, c: Carrier, data: Option<string>)
    requires "data" !in fields && "data_base64" !in fields
    requires Carried(p, c) == Ok(data)
    ensures WritesData(p, Obj(PutData(fields, c)), data)
    ensures forall key, v :: key != "data" && key != "data_base64" ==>
              (Writes(Obj(PutData(fields, c)), key, v) <==> Writes(Obj(fields), key, v))
  {
    hide Base64.Decoded;
  }

  /** Reading gives back the message that was written, through every carrier. */
  lemma FormIsRead(p: Platform, m: Message, c: Carrier)
    requires Carried(p, c) == Ok(m.data)
    ensures MessageOf(p, FormOf(m, c)) == Ok(m)
  {
    hide Writes, Fields, PutData, WritesData, MessageOf, Carried;
    AttributesWritten(m, 0);
    AttributesWritten(m, 1);
    AttributesWritten(m, 2);
    AttributesWritten(m, 3);
    AttributesWritten(m, 4);
    AttributesWritten(m, 5);
    AttributesWritten(m, 6);
    AttributesWritten(m, 7);
    DataWritten(p, TextMembers(Fields(Attributes(m))), c, m.data);
    ReadsExactlyForms(p, FormOf(m, c), m);
  }

  /** Batch elements are not unwrapped: when that shows, and when it does not. */
  lemma BatchAgreesWithSingles(p: Platform, texts: seq<string>, items: seq<Json>, batch: string,
                               events: seq<CloudEvent>)
    requires |texts| == |items|
    requires forall i :: 0 <= i < |texts| ==> p.parseJson(texts[i]) == Ok(items[i])
    requires p.parseJson(batch) == Ok(Arr(items))
    requires ReadBatch(p, batch) == Ok(events)
    ensures |events| == |items|
    ensures (forall i :: 0 <= i < |texts| ==> ReadText(p, texts[i]) == Ok(events[i])) <==>
            (forall i :: 0 <= i < |events| ==> StorageEvents.Rewritten(p, events[i]) == Ok(events[i]))
  {
    hide ReadValue, StorageEvents.Rewritten, ReadValues;
    ReadsElementwise(p, items, events);
    forall i | 0 <= i < |texts|
      ensures ReadText(p, texts[i]) == StorageEvents.Rewritten(p, events[i])
    {
      assert ReadValue(p, items[i]) == Ok(events[i]);
    }
  }

  /** The error of a list is that of its first bad element. */
  lemma {:induction false} FirstBadElement(p: Platform, items: seq<Json>, bad: nat) returns (i: nat)
    requires bad < |items| && ReadValue(p, items[bad]).Thrown?
    ensures i <= bad && ReadValue(p, items[i]).Thrown?
    ensures ReadValues(p, items) == Thrown(ReadValue(p, items[i]).what)
    ensures forall k :: 0 <= k < i ==> ReadValue(p, items[k]).Ok?
    decreases |items|
  {
    hide ReadValue;
    var last := |items| - 1;
    if bad < last {
      i := FirstBadElement(p, items[..last], bad);
    } else if ReadValues(p, items[..last]).Ok? {
      i := bad;
      ReadsElementwise(p, items[..last], ReadValues(p, items[..last]).value);
    } else {
      var earlier := ErrorHasElement(p, items[..last]);
      i := FirstBadElement(p, items[..last], earlier);
    }
  }

  lemma {:induction false} ErrorHasElement(p: Platform, items: seq<Json>) returns (i: nat)
    requires ReadValues(p, items).Thrown?
    ensures i < |items| && ReadValue(p, items[i]).Thrown?
  {
    hide ReadValue;
    var last := |items| - 1;
    if ReadValues(p, items[..last]).Ok? {
      i := last;
    } else {
      i := ErrorHasElement(p, items[..last]);
    }
  }

  /** A batch is read exactly when every element can be read by itself. */
  lemma BatchNeedsEveryElement(p: Platform, text: string, items: seq<Json>)
    requires p.parseJson(text) == Ok(Arr(items))
    ensures ReadBatch(p, text).Ok? <==> forall i :: 0 <= i < |items| ==> ReadValue(p, items[i]).Ok?
  {
    hide ReadValue, ReadValues;
    if ReadBatch(p, text).Ok? {
      ReadsElementwise(p, items, ReadBatch(p, text).value);
    } else if forall i :: 0 <= i < |items| ==> ReadValue(p, items[i]).Ok? {
      var events := seq(|items|, i requires 0 <= i < |items| => ReadValue(p, items[i]).value);
      ReadsElementwise(p, items, events);
      assert false;
    }
  }
}
