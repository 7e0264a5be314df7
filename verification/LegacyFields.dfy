/** The fields that every legacy event has, and where they are looked for in the JSON value. */
module LegacyFields {
  import opened Wrappers
  import opened JsonValues
  import opened LegacyTypes

  /** The text under a path of keys; empty when there is none. */
  function GetNestedKey(json: Json, path: seq<string>): string {
    if path == [] then ""
    else if !json.Has(path[0]) then ""
    else
      var sub := json.fields[path[0]];
      if sub.Str? && |path| == 1 then sub.s
      else if !sub.Obj? then ""
      else GetNestedKey(sub, path[1..])
  }

  /** The value that a path names, defined from its end: the last key in what the rest names. */
  function Named(json: Json, path: seq<string>): Option<Json> {
    if path == [] then Some(json)
    else
      var last := |path| - 1;
      match Named(json, path[..last])
      case None => None
      case Some(inner) => if inner.Has(path[last]) then Some(inner.fields[path[last]]) else None
  }

  lemma {:induction false} NamedFromFront(json: Json, path: seq<string>)
    requires path != []
    ensures Named(json, path) ==
            if json.Has(path[0]) then Named(json.fields[path[0]], path[1..]) else None
  {
    var last := |path| - 1;
    if last == 0 {
      assert path[..last] == [] && path[1..] == [];
      assert Named(json, path[..last]) == Some(json);
    } else {
      NamedFromFront(json, path[..last]);
      assert path[..last][1..] == path[1..][..last - 1];
      assert path[1..][last - 1] == path[last];
    }
  }

  /** The first `k` keys name an object that has the next key. */
  predicate StepExists(json: Json, path: seq<string>, k: nat)
    requires k < |path|
  {
    Named(json, path[..k]).Some? && Named(json, path[..k]).value.Has(path[k])
  }

  /** A path names a value exactly when every proper prefix of it names an object with the next key. */
  lemma {:induction false} NamedNeedsObjects(json: Json, path: seq<string>)
    ensures Named(json, path).Some? <==> forall k :: 0 <= k < |path| ==> StepExists(json, path, k)
  {
    if path != [] {
      var last := |path| - 1;
      NamedNeedsObjects(json, path[..last]);
      assert Named(json, path).Some? <==> StepExists(json, path, last);
      assert StepExists(json, path, last) ==> Named(json, path[..last]).Some?;
      hide Named;
      assert forall k :: 0 <= k < last ==> path[..last][..k] == path[..k];
      assert forall k :: 0 <= k < last ==>
               (StepExists(json, path[..last], k) <==> StepExists(json, path, k));
    }
  }

  /** A non-empty text is found exactly when a non-empty path names it. */
  lemma {:induction false} NestedKeyIsNamed(json: Json, path: seq<string>, text: string)
    requires text != ""
    ensures GetNestedKey(json, path) == text <==> path != [] && Named(json, path) == Some(Str(text))
  {
    if path != [] {
      NamedFromFront(json, path);
      if json.Has(path[0]) {
        var sub := json.fields[path[0]];
        NestedKeyIsNamed(sub, path[1..], text);
        if path[1..] != [] {
          NamedFromFront(sub, path[1..]);
        }
      }
    }
  }

  /** The text under the first path or else under the second key of the top level. */
  function GetAlternatives(json: Json, primary: seq<string>, alternative: string): Result<string> {
    var value := GetNestedKey(json, primary);
    if value != "" then Ok(value) else json.TextOr(alternative, "")
  }

  // The common fields

  datatype Common = Common(
    eventType: string,
    service: string,
    eventId: string,
    resourceName: string,
    timestamp: string,
    source: string,
    subject: string)

  const CONTEXT_TYPE := ["context", "eventType"]
  const CONTEXT_SERVICE := ["context", "resource", "service"]
  const CONTEXT_ID := ["context", "eventId"]
  const CONTEXT_RESOURCE := ["context", "resource", "name"]
  const CONTEXT_TIME := ["context", "timestamp"]

  function ServiceOf(json: Json, eventType: string): Result<string> {
    var value := GetNestedKey(json, CONTEXT_SERVICE);
    if value != "" then Ok(value) else MapGCFTypeToService(eventType)
  }

  function ParseLegacyCommonFields(json: Json): Result<Common> {
    var eventType :- GetAlternatives(json, CONTEXT_TYPE, "eventType");
    var service :- ServiceOf(json, eventType);
    var eventId :- GetAlternatives(json, CONTEXT_ID, "eventId");
    var resourceName :- GetAlternatives(json, CONTEXT_RESOURCE, "resource");
    var timestamp :- GetAlternatives(json, CONTEXT_TIME, "timestamp");
    Ok(Common(eventType, service, eventId, resourceName, timestamp,
              "//" + service + "/" + resourceName, ""))
  }

  /** The path names a text that is not empty. */
  predicate Given(json: Json, path: seq<string>) {
    var named := Named(json, path);
    named.Some? && named.value.Str? && named.value.s != ""
  }

  /** A field of the context, when it is given, hides the alternative; otherwise it is not seen. */
  lemma AlternativeOnlyWithoutContext(json: Json, primary: seq<string>, alternative: string)
    requires primary != []
    ensures GetAlternatives(json, primary, alternative) ==
            if Given(json, primary) then Ok(Named(json, primary).value.s)
            else json.TextOr(alternative, "")
  {
    if Given(json, primary) {
      NestedKeyIsNamed(json, primary, Named(json, primary).value.s);
    } else if GetNestedKey(json, primary) != "" {
      NestedKeyIsNamed(json, primary, GetNestedKey(json, primary));
    }
  }

  /** The field is the text that the path names, or else the top-level text, or else empty. */
  predicate FieldIs(json: Json, primary: seq<string>, alternative: string, value: string) {
    if Given(json, primary) then Named(json, primary) == Some(Str(value))
    else json.Obj? && if json.Has(alternative) then json.fields[alternative] == Str(value) else value == ""
  }

  lemma FieldIsExact(json: Json, primary: seq<string>, alternative: string, value: string)
    requires primary != []
    ensures GetAlternatives(json, primary, alternative) == Ok(value) <==>
            FieldIs(json, primary, alternative, value)
  {
    hide GetAlternatives, Named;
    AlternativeOnlyWithoutContext(json, primary, alternative);
  }

  /** The service is the one that the context names, or else the one of the type's prefix. */
  predicate ServiceIs(json: Json, eventType: string, service: string) {
    var path := ["context", "resource", "service"];
    if Given(json, path) then Named(json, path) == Some(Str(service))
    else MapGCFTypeToService(eventType) == Ok(service)
  }

  lemma ServiceIsExact(json: Json, eventType: string, service: string)
    ensures ServiceOf(json, eventType) == Ok(service) <==> ServiceIs(json, eventType, service)
  {
    hide Named, MapGCFTypeToService, GetNestedKey;
    if GetNestedKey(json, CONTEXT_SERVICE) != "" {
      NestedKeyIsNamed(json, CONTEXT_SERVICE, GetNestedKey(json, CONTEXT_SERVICE));
    } else if Given(json, CONTEXT_SERVICE) {
      NestedKeyIsNamed(json, CONTEXT_SERVICE, Named(json, CONTEXT_SERVICE).value.s);
    }
  }

  /** Exactly which common fields a JSON value has, each by its own place. */
  lemma CommonFieldsAreExact(json: Json, gcf: Common)
    ensures ParseLegacyCommonFields(json) == Ok(gcf) <==>
            && FieldIs(json, ["context", "eventType"], "eventType", gcf.eventType)
            && ServiceIs(json, gcf.eventType, gcf.service)
            && FieldIs(json, ["context", "eventId"], "eventId", gcf.eventId)
            && FieldIs(json, ["context", "resource", "name"], "resource", gcf.resourceName)
            && FieldIs(json, ["context", "timestamp"], "timestamp", gcf.timestamp)
            && gcf.source == "//" + gcf.service + "/" + gcf.resourceName
            && gcf.subject == ""
  {
    hide GetAlternatives, ServiceOf, FieldIs, ServiceIs;
    FieldIsExact(json, CONTEXT_TYPE, "eventType", gcf.eventType);
    ServiceIsExact(json, gcf.eventType, gcf.service);
    FieldIsExact(json, CONTEXT_ID, "eventId", gcf.eventId);
    FieldIsExact(json, CONTEXT_RESOURCE, "resource", gcf.resourceName);
    FieldIsExact(json, CONTEXT_TIME, "timestamp", gcf.timestamp);
  }

  /** Paths are looked up below their first key. */
  lemma NamedInSameContext(json: Json, other: Json, path: seq<string>)
    requires path != [] && json.Has(path[0]) && other.Has(path[0])
    requires json.fields[path[0]] == other.fields[path[0]]
    ensures Named(json, path) == Named(other, path)
  {
    NamedFromFront(json, path);
    NamedFromFront(other, path);
  }

  /**
   * An event whose context is complete is read from its context alone: nothing else in the JSON
   * value has a say, not even a value of the wrong kind.
   */
  lemma ContextDecides(json: Json, other: Json)
    requires json.Has("context") && other.Has("context")
    requires json.fields["context"] == other.fields["context"]
    requires Given(json, CONTEXT_TYPE) && Given(json, CONTEXT_ID)
    requires Given(json, CONTEXT_RESOURCE) && Given(json, CONTEXT_TIME)
    ensures ParseLegacyCommonFields(json) == ParseLegacyCommonFields(other)
  {
    hide GetAlternatives, MapGCFTypeToService;
    ContextFieldDecides(json, other, CONTEXT_TYPE, "eventType");
    ContextFieldDecides(json, other, CONTEXT_ID, "eventId");
    ContextFieldDecides(json, other, CONTEXT_RESOURCE, "resource");
    ContextFieldDecides(json, other, CONTEXT_TIME, "timestamp");
    ServiceDecides(json, other);
  }

  lemma ContextFieldDecides(json: Json, other: Json, path: seq<string>, alternative: string)
    requires path != [] && json.Has(path[0]) && other.Has(path[0])
    requires json.fields[path[0]] == other.fields[path[0]]
    requires Given(json, path)
    ensures GetAlternatives(json, path, alternative) == GetAlternatives(other, path, alternative)
    ensures GetAlternatives(json, path, alternative) == Ok(Named(json, path).value.s)
  {
    hide GetAlternatives, Named;
    NamedInSameContext(json, other, path);
    AlternativeOnlyWithoutContext(json, path, alternative);
    AlternativeOnlyWithoutContext(other, path, alternative);
  }

  lemma ServiceDecides(json: Json, other: Json)
    requires json.Has("context") && other.Has("context")
    requires json.fields["context"] == other.fields["context"]
    ensures GetNestedKey(json, CONTEXT_SERVICE) == GetNestedKey(other, CONTEXT_SERVICE)
  {
  }
}
