/** The event that user functions receive. It is copied and returned by value. */
module CloudEvents {
  import opened Wrappers
  import opened JsonValues

  const DEFAULT_SPEC_VERSION := "1.0"

  datatype CloudEvent = CloudEvent(
    id: string,
    source: string,
    ceType: string,
    specVersion: string,
    dataContentType: Option<string>,
    dataSchema: Option<string>,
    subject: Option<string>,
    time: Option<Time>,
    data: Option<string>)

  /** The constructor: no optional attribute is set. */
  function NewEvent(id: string, source: string, ceType: string, specVersion: string): CloudEvent {
    CloudEvent(id, source, ceType, specVersion, None, None, None, None, None)
  }

  /** The attributes of an event as a sender writes them, before any of them is interpreted. */
  datatype Message = Message(
    id: string,
    source: string,
    ceType: string,
    specVersion: Option<string>,
    dataContentType: Option<string>,
    dataSchema: Option<string>,
    subject: Option<string>,
    time: Option<string>,
    data: Option<string>)

  /** The event that a message means, whatever transport carries it; only its time can be wrong. */
  function Meaning(p: Platform, m: Message): (r: Result<CloudEvent>)
    ensures r.Thrown? <==> m.time.Some? && p.parseTime(m.time.value).Thrown?
  {
    var time :- if m.time.None? then Ok(None) else ParsedTime(p, m.time.value);
    Ok(CloudEvent(m.id, m.source, m.ceType, m.specVersion.GetOr(DEFAULT_SPEC_VERSION),
                  m.dataContentType, m.dataSchema, m.subject, time, m.data))
  }

  /** `set_time` with a text. */
  function ParsedTime(p: Platform, timestamp: string): Result<Option<Time>> {
    var time :- p.parseTime(timestamp);
    Ok(Some(time))
  }

  // Named texts, as headers or JSON members carry them

  predicate Holds(fields: map<string, string>, name: string, value: Option<string>) {
    match value
    case None => name !in fields
    case Some(text) => name in fields && fields[name] == text
  }

  /** The fields of the attributes that have a value. */
  function Fields(attributes: seq<(string, Option<string>)>): map<string, string> {
    if attributes == [] then map[]
    else
      var last := |attributes| - 1;
      var fields := Fields(attributes[..last]);
      match attributes[last].1
      case None => fields
      case Some(text) => fields[attributes[last].0 := text]
  }

  predicate DistinctNames(attributes: seq<(string, Option<string>)>) {
    forall i, j :: 0 <= i < j < |attributes| ==> attributes[i].0 != attributes[j].0
  }

  lemma {:induction false} OnlyNamed(attributes: seq<(string, Option<string>)>, name: string)
    requires forall i :: 0 <= i < |attributes| ==> attributes[i].0 != name
    ensures Holds(Fields(attributes), name, None)
  {
    if attributes != [] {
      OnlyNamed(attributes[..|attributes| - 1], name);
    }
  }

  lemma {:induction false} FieldsHold(attributes: seq<(string, Option<string>)>, i: nat)
    requires i < |attributes| && DistinctNames(attributes)
    ensures Holds(Fields(attributes), attributes[i].0, attributes[i].1)
  {
    var last := |attributes| - 1;
    if i == last {
      OnlyNamed(attributes[..last], attributes[last].0);
    } else {
      FieldsHold(attributes[..last], i);
      assert attributes[i].0 != attributes[last].0;
    }
  }
}
