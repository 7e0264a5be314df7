# Verification of the Functions Framework for C++

A Dafny model of the parts of the framework that carry a request from `accept` to the event that a
user function receives, and of two hand-written parsers in its examples, with proofs about them.
`dafny verify dfyconfig.toml` checks everything.

| Module | Subject |
|---|---|
| `Scheduler`, `Server` | the accept loop: one thread per connection, futures in a vector, clean-ups at 80 and 160. `Scheduler` is the transition system, with sessions that finish at any moment; `Server` has the loops as they are written, and a ghost log that shows every execution to be a run of `Scheduler` |
| `Sessions` | one connection: read, handle, flush, write, until the stream ends or fails |
| `Delivery`, `Dispatch` | handing events to the user function and making the response; finding the handler in nested maps |
| `Framework` | the pieces together: which exceptions end a session, and which sessions decide the exit code |
| `HttpEvents`, `HeaderEncoding`, `JsonEvents` | CloudEvents in HTTP (binary, structured, batch) and in JSON |
| `StorageEvents`, `StorageAgreement`, `Base64` | Cloud Storage notifications wrapped in Pub/Sub messages; base64 decoding |
| `LegacyTypes`, `LegacyFields`, `LegacyNames`, `MetadataRenames`, `LegacyEvents` | the event formats that predate CloudEvents |
| `Unwrapping` | where storage notifications stay wrapped |
| `FormUrl`, `FormData`, `MultipartLayout`, `MultipartSplit` | the form parsers of two examples; every body that RFC 2046 allows |
| `JsonValues`, `CloudEvents`, `Text`, `Wrappers` | JSON values, events and messages, string searches, `Option` and `Result` |

How the model reads the program:

* `std::string` is a Dafny `string` whose characters stand for bytes. An exception is
  `Result.Thrown` with its text, which matters: it decides whether there is a response. The texts
  of the repository's own exceptions are written out; one constant stands for those of the JSON
  accessors.
* JSON text, RFC 3339 time and UTF-8 are a `Platform`: four functions of which nothing is assumed. A
  statement about "the structured form of a message" is about every text that parses to a JSON
  value of that form. So no inverse of the JSON printer is assumed, except that `Unwrapping` asks of
  the one payload it is about that its text parses back.
* A `Message` holds the attributes of an event as texts. `CloudEvents.Meaning` is the one event
  that a message means; each transport is proved to read exactly the messages that a relation
  (`IsFormOf`, `IsBinaryFormOf`) lets it carry.
* Every regular expression is a predicate on strings, proved to admit one decomposition only.
* Methods follow the loops and the setters of the program and are proved equal to specification
  functions. The lemmas are about those functions.
* `char` is signed, as on x86-64.

Where the program differs from what is written about it:

* The comment at `framework_impl.cc:108-109` says the server blocks until it is below the clean-up
  threshold (80). The code blocks until it is below the maximum (160).
  `Scheduler.BlocksOnlyBelowMaximum` is a run that shows it, `Scheduler.BlockingCleanupOutcome`
  says exactly when each of the two would hold.
* An exception is not always answered by a 500. The report of an exception is printed as JSON
  inside the `catch` (`call_user_function.cc:36-56`), which throws when the text is not valid UTF-8.
  Then there is no response: the session ends, and so does the server when it takes that session's
  future. `Delivery.OutcomeIsExact` and `Framework.ExitCodeIsExact` say exactly when.
* A storage notification is unwrapped when it is sent alone and not when it is an element of a
  batch or a legacy event. `JsonEvents.BatchAgreesWithSingles` and `Unwrapping.LegacyStaysWrapped`
  say exactly when that shows; `Unwrapping.BatchNotificationStaysWrapped` and
  `Unwrapping.LegacyNotificationStaysWrapped` are notifications for which it does.
* Binary and structured mode agree for exactly those content types that do not start like one of
  the two `application/cloudevents` types (`HttpEvents.BinaryModeNeedsUnreservedType`).
* A multipart body that RFC 2046 allows is split into its parts, with its preamble and epilogue, if
  and only if there is a line break before its first boundary and one after its last, no boundary
  is padded, no part is empty, and preamble and epilogue hold no marker that the search takes
  first (`MultipartSplit.SplitsExactlyStrictBodies`). The part marker is searched first, so a
  boundary line in the epilogue swallows the closing marker
  (`MultipartSplit.EpilogueSwallowsClosing`).
* A quoted boundary is read exactly when it has no separator, so quotes do not protect the spaces
  that RFC 2046 allows (`FormData.QuotedBoundaryIsExact`, `FormData.QuotedSpaceIsCut`).
* Header values are taken as they are. Section 3.1.3.2 of the CloudEvents HTTP Protocol Binding has
  senders percent-encode them; an attribute that needs it is delivered encoded in binary mode
  (`HeaderEncoding.HeadersAreTakenRaw`).
* Two event types of the legacy table have no service prefix, and are errors unless the context
  names the service: `LegacyTypes.TypesWithoutService`.

## Model

| member | source | states |
|---|---|---|
| Scheduler.EveryRun | google/cloud/functions/internal/framework_impl.cc:90-125 | after every run: accepted sessions are the disjoint union of those held, in accept order, and those reaped; each is reaped once and only when finished; at most 160 are held and fewer at `accept`; a blocking clean-up starts with exactly 160; after the exit none runs |
| Scheduler.BlockingCleanupOutcome | google/cloud/functions/internal/framework_impl.cc:108-119 | the server accepts after a blocking clean-up exactly if that reaped a session, and blocks again otherwise; it is below 80 exactly if more than 80 were reaped |
| Scheduler.FinishedIsTaken | google/cloud/functions/internal/framework_impl.cc:90-100 | a session that returned and is still to be polled is reaped before the clean-up ends, which takes one step per future |
| Scheduler.BlockedServerResumes | google/cloud/functions/internal/framework_impl.cc:117-120 | a blocked server accepts again after any clean-up that polls one finished session, whatever else happens meanwhile |
| Scheduler.FinishedSessionUnblocks | google/cloud/functions/internal/framework_impl.cc:114-120 | from any point between the shutdown question and the accept, with one finished session held: whatever finishes meanwhile, within the given number of steps (at most two clean-ups) the server accepts or leaves |
| Scheduler.FailuresAreLogged | google/cloud/functions/internal/framework_impl.cc:120-124 | the server stops for a failure of its own exactly if accepting or starting a session failed |
| Scheduler.FinishedAreTakenFirst | google/cloud/functions/internal/framework_impl.cc:114-120 | with 80 sessions or more after the shutdown question, every session that has finished is reaped before the next accept, whatever happens meanwhile; if not, the server leaves because a session threw |
| Scheduler.NoCleanupBelowThreshold | google/cloud/functions/internal/framework_impl.cc:113-120 | with fewer than 80 sessions nothing is reaped between the shutdown question and the accept, which are two tests apart |
| Scheduler.NoAcceptAfterStop | google/cloud/functions/internal/framework_impl.cc:113-126 | after a shutdown, a closed acceptor or a failure nothing is accepted any more, and the server stops for that cause |
| Scheduler.FillTo | google/cloud/functions/internal/framework_impl.cc:112-125 | the bound is reached: any number of sessions up to 160 can be held at once |
| Scheduler.BlocksOnlyBelowMaximum | google/cloud/functions/internal/framework_impl.cc:108-119 | a run that blocks and then accepts while it holds 159 sessions, against the comment |
| Server.AcceptLoop.Cleanup | google/cloud/functions/internal/framework_impl.cc:90-100 | the loop over the moved vector performs a clean-up of the transition system: kept futures in order, or the rethrow with what unwinding destroys |
| Server.AcceptLoop.MakeRoom | google/cloud/functions/internal/framework_impl.cc:114-119 | the two thresholds lead to the accept point, to a rethrow, or (when the observations end) to a server that still holds 160 or more; from 80 sessions on all that had finished are reaped by then, below 80 none |
| Server.AcceptLoop.AcceptSocket | google/cloud/functions/internal/framework_impl.cc:120-124 | an accepted connection becomes a session, a closed acceptor ends the loop, and an exception of `accept` or `async` leaves the server |
| Server.AcceptLoop.RunForTest | google/cloud/functions/internal/framework_impl.cc:112-139 | every execution of the nested loops is a run of the transition system, which ends at an exit with the returned code unless the observations end first |
| Server.FinishedRun | google/cloud/functions/internal/framework_impl.cc:112-139 | after an exit all sessions have ended; the code is 1 exactly if a reaped session threw, or `accept` or `async` did, and 0 exactly otherwise |
| Sessions.HandleSession | google/cloud/functions/internal/framework_impl.cc:37-66 | for every script of the peer and every handler, stateful or not, the loop does what the conversation says, and ends as it says |
| Sessions.Cycle | google/cloud/functions/internal/framework_impl.cc:44-64 | events follow the cycle read, handle, flush, write; a handled request is written with its stamped answer, unless its response must not have the body it has: then all ends after the flush |
| Sessions.AnswersWithinRound | google/cloud/functions/internal/framework_impl.cc:44-64 | at each point of each round: one response per round before, and the request of this round |
| Sessions.EveryPrefixAnswers | google/cloud/functions/internal/framework_impl.cc:44-64 | at every moment response i is the handler's answer in round i to request i with that request's keep-alive flag, and responses <= requests <= responses + 1 |
| Sessions.ShutDownLast | google/cloud/functions/internal/framework_impl.cc:49-65 | the socket is shut down exactly when the stream ended, after whole rounds in which every write succeeded |
| Sessions.AllAnsweredAtShutDown | google/cloud/functions/internal/framework_impl.cc:49-65 | the shutdown is the last event and comes once; then every request read has been answered |
| Sessions.RethrownExactly | google/cloud/functions/internal/framework_impl.cc:52-60 | the session ends by an exception exactly if some round is reached whose handler throws or whose response is unsendable |
| Sessions.FailedExactly | google/cloud/functions/internal/framework_impl.cc:48-63 | the session fails exactly if its last event is a report, of a read error between rounds or of a response that was not written |
| Delivery.CallUserFunction | google/cloud/functions/internal/call_user_function.cc:81-98 | response and calls of the user function, for any function that may throw anything at any call |
| Delivery.Attempts | google/cloud/functions/internal/call_user_function.cc:90-92 | the number of calls: none before the last throws, and the last throws if an event is left |
| Delivery.DeliveryIsAPrefix | google/cloud/functions/internal/call_user_function.cc:84-93 | the calls are an in-order prefix of the events; nothing is raised exactly when all were delivered and none threw |
| Delivery.OutcomeIsExact | google/cloud/functions/internal/call_user_function.cc:37-98 | 404 exactly for the two intercepted targets; 200 exactly when nothing is raised; 500 exactly when what is raised can be reported; no response exactly when its text is not valid UTF-8 |
| Delivery.UnreadableIsRaised | google/cloud/functions/internal/call_user_function.cc:89-97 | a request that cannot be read, by any route, raises the error of reading it and leads to no call |
| Delivery.FirstBadCallIsRaised | google/cloud/functions/internal/call_user_function.cc:90-97 | the first call that throws is the last one, and what it throws is raised |
| Delivery.ReportIsExact | google/cloud/functions/internal/call_user_function.cc:37-56 | the body of the response to an exception is the object with its severity and text |
| Delivery.BadBytesEscape | google/cloud/functions/internal/call_user_function.cc:37-56 | a structured body that the JSON reader rejects with an unreportable text gets no response and no call |
| Delivery.BadElementStopsTheBatch | google/cloud/functions/internal/parse_cloud_event_json.cc:72-85 | if an element of a batch cannot be read, nothing is delivered and the error of such an element is raised |
| Delivery.TransportDoesNotShow | google/cloud/functions/internal/call_user_function.cc:89-93 | binary and structured form of a message lead to the same calls and the same outcome |
| Framework.HandlerThrowsExactly | google/cloud/functions/internal/call_user_function.cc:81-98 | a round of a session throws exactly if its request raises an exception that cannot be reported |
| Framework.HandlerAnswers | google/cloud/functions/internal/function_impl.cc:37-40 | a request that gets a response is answered in its session with that status and body |
| Framework.SessionThrowsExactly | google/cloud/functions/internal/framework_impl.cc:44-66 | a session of a CloudEvent function ends by an exception exactly if one of the requests it reaches raises an exception that cannot be reported |
| Framework.ExitCodeIsExact | google/cloud/functions/internal/framework_impl.cc:86-139 | the exit code is 1 exactly if the server could not accept or start a session, or it took the future of a session in which such an exception was raised |
| Dispatch.HandlerIsReached | google/cloud/functions/internal/function_impl.cc:42-58 | repeating the target leads to one end, a handler that is returned or a map without it, which is the error |
| Dispatch.FoundWhenEveryMapHasTarget | google/cloud/functions/internal/function_impl.cc:51-58 | a handler is returned exactly when no map on the way lacks the target |
| Dispatch.LookupIsFlattened | google/cloud/functions/internal/function_impl.cc:51-58 | the handler is the one that the flattened map has under some repetition of the target |
| HttpEvents.ParseCloudEventHttpBinary | google/cloud/functions/internal/parse_cloud_event_http.cc:33-67 | the setters fill in what the message of the headers means, attribute by attribute |
| HttpEvents.BinaryIsTold | google/cloud/functions/internal/parse_cloud_event_http.cc:33-67 | a request is read as e if and only if each attribute of e is that of the header with its name, the spec version is 1.0 if none is sent, the time is the parsed one, and the content types agree |
| HttpEvents.UnidentifiedIsError | google/cloud/functions/internal/parse_cloud_event_http.cc:38-40 | a request without the minimal headers and without JSON content is an error |
| HttpEvents.ParseCloudEventHttp | google/cloud/functions/internal/parse_cloud_event_http.cc:69-86 | the routing by content type and minimal headers |
| HttpEvents.ReadsExactlyBinaryForms | google/cloud/functions/internal/parse_cloud_event_http.cc:33-67 | a request is read as message m if and only if its headers and body are a binary form of m |
| HttpEvents.BinaryDelivers | google/cloud/functions/internal/parse_cloud_event_http.cc:71-85 | any binary form of m with another content type gives the one unwrapped event of m, or an error exactly when that has one |
| HttpEvents.StructuredDelivers | google/cloud/functions/internal/parse_cloud_event_http.cc:78-80 | the same for any structured form of m |
| HttpEvents.TransportEquivalence | google/cloud/functions/internal/parse_cloud_event_http.cc:69-86 | binary and structured form of the same message give the same single unwrapped event, or both fail, whatever carries the payload |
| HttpEvents.BinaryHasStructuredForms | google/cloud/functions/internal/parse_cloud_event_http.cc:69-86 | every binary request that carries a message agrees with each structured rendering of that message |
| HttpEvents.StructuredHasBinaryForm | google/cloud/functions/internal/parse_cloud_event_http.cc:69-86 | every structured request agrees with the binary rendering of its message unless its content type is reserved |
| HttpEvents.BinaryOfIsForm | google/cloud/functions/internal/parse_cloud_event_http.cc:33-67 | the binary rendering of any message is a form of it |
| HeaderEncoding.HeadersAreTakenRaw | google/cloud/functions/internal/parse_cloud_event_http.cc:36-60 | a message whose header values are percent-encoded as the binding asks is read back if and only if no attribute needs encoding |
| HeaderEncoding.SubjectIsDeliveredEncoded | google/cloud/functions/internal/parse_cloud_event_http.cc:55-57 | a subject that needs encoding is delivered encoded in binary mode, and as it is otherwise |
| HttpEvents.ReservedTypeHidesHeaders | google/cloud/functions/internal/parse_cloud_event_http.cc:74-80 | with a reserved content type the result depends on content type and body alone |
| HttpEvents.ReservedTypeBreaksEquivalence | google/cloud/functions/internal/parse_cloud_event_http.cc:74-80 | for every reserved content type a deliverable message whose binary form fails |
| HttpEvents.BinaryModeNeedsUnreservedType | google/cloud/functions/internal/parse_cloud_event_http.cc:69-86 | all binary forms of all messages of a content type deliver what the message means if and only if the type has neither reserved prefix (for a JSON reader that reads some text as null) |
| HttpEvents.BatchDelivers | google/cloud/functions/internal/parse_cloud_event_http.cc:75-77 | a batch of n forms gives exactly the n events of the messages, in order and not unwrapped, if all can be read, and no other result |
| HttpEvents.BatchOfOneDiffers | google/cloud/functions/internal/parse_cloud_event_http.cc:75-80 | alone and in a batch a message is delivered alike if and only if unwrapping keeps its event |
| HttpEvents.NotificationIsUnwrapped | google/cloud/functions/internal/parse_cloud_event_http.cc:85 | a binary request with a storage notification delivers the storage event with the decoded payload |
| HttpEvents.LegacyDelivers | google/cloud/functions/internal/parse_cloud_event_http.cc:81-84 | a JSON body without the minimal headers takes the legacy route, since its content type is not reserved |
| Unwrapping.LegacyStaysWrapped | google/cloud/functions/internal/parse_cloud_event_http.cc:81-84 | a legacy event is delivered as unwrapping would leave it if and only if its type is not translated to that of Pub/Sub or the JSON value of the request holds a foreign payload |
| Unwrapping.EditsDoNotShow | google/cloud/functions/internal/parse_cloud_event_legacy.cc:157-283 | neither the stamps nor the renames change whether a payload is foreign |
| Unwrapping.LegacyNoticeStaysWrapped | google/cloud/functions/internal/parse_cloud_event_http.cc:81-84 | any legacy event of the Pub/Sub type whose payload carries a notice is delivered wrapped, where unwrapping would give the storage event |
| Unwrapping.LegacyNotificationStaysWrapped | google/cloud/functions/internal/parse_cloud_event_http.cc:81-84 | such a legacy event for any notification |
| Unwrapping.BatchNoticeStaysWrapped | google/cloud/functions/internal/parse_cloud_event_json.cc:79-84 | any message that carries a notice is delivered wrapped in a batch of one and unwrapped alone |
| Unwrapping.BatchNotificationStaysWrapped | google/cloud/functions/internal/parse_cloud_event_json.cc:79-84 | such a batch for any notification |
| JsonEvents.ParseCloudEventJsonValue | google/cloud/functions/internal/parse_cloud_event_json.cc:25-62 | the setters fill in what the message of the JSON value means, attribute by attribute |
| JsonEvents.ValueIsTold | google/cloud/functions/internal/parse_cloud_event_json.cc:25-62 | a JSON value is read as e if and only if each attribute of e is that of the member with its name, with the default spec version, the parsed time, and the payload of `data` before `data_base64` |
| JsonEvents.OnlyArraysAreBatches | google/cloud/functions/internal/parse_cloud_event_json.cc:74-78 | a batch that is read is a JSON array |
| JsonEvents.ParseData | google/cloud/functions/internal/parse_cloud_event_json.cc:48-59 | the payload: an object as its text, a text as it is, `data_base64` decoded, anything else an error |
| JsonEvents.ParseCloudEventJson | google/cloud/functions/internal/parse_cloud_event_json.cc:67-70 | a single event is unwrapped |
| JsonEvents.ParseCloudEventJsonBatch | google/cloud/functions/internal/parse_cloud_event_json.cc:72-85 | the loop reads the elements in order and fails with the error of the first bad one |
| JsonEvents.ReadsExactlyForms | google/cloud/functions/internal/parse_cloud_event_json.cc:25-62 | a JSON value is read as message m if and only if it is a form of m: each attribute absent or a text, the payload in one of its carriers |
| JsonEvents.FormIsRead | google/cloud/functions/internal/parse_cloud_event_json.cc:25-62 | round trip: writing any message with any carrier and reading gives it back |
| JsonEvents.ReadsElementwise | google/cloud/functions/internal/parse_cloud_event_json.cc:79-84 | a list of values is read to events exactly if each value is read to the event in its place |
| JsonEvents.FormIsMeant | google/cloud/functions/internal/parse_cloud_event_json.cc:25-62 | any form of a message is read as the event that the message means |
| JsonEvents.FirstBadElement | google/cloud/functions/internal/parse_cloud_event_json.cc:79-84 | the error of a list is that of its first bad element |
| JsonEvents.BatchNeedsEveryElement | google/cloud/functions/internal/parse_cloud_event_json.cc:72-85 | a batch is read if and only if every element is |
| JsonEvents.BatchAgreesWithSingles | google/cloud/functions/internal/parse_cloud_event_json.cc:67-85 | a batch gives what its elements give as single texts if and only if unwrapping keeps every event |
| StorageEvents.ParseCloudEventStorage | google/cloud/functions/internal/parse_cloud_event_storage.cc:22-65 | the guards and setters compute the rewrite; a new event is told by the JSON payload attribute by attribute |
| StorageEvents.RewriteInvertsWrapping | google/cloud/functions/internal/parse_cloud_event_storage.cc:28-64 | for any bucket, object, known type and bytes, with or without trailing padding: the source ends in the bucket, the subject in the object, the type is the mapped one and the payload the bytes; id, spec version and time are kept |
| StorageEvents.RewriteIsTold | google/cloud/functions/internal/parse_cloud_event_storage.cc:22-65 | exactly which events are replaced, and every field of the new event in terms of the JSON attributes and the old event |
| StorageEvents.ForeignIsExact | google/cloud/functions/internal/parse_cloud_event_storage.cc:29-51 | exactly which payloads are left alone: a missing message, data or attribute, another format, or another event type |
| StorageAgreement.NotificationAgreesWithLegacy | google/cloud/functions/internal/parse_cloud_event_storage.cc:42-60 | for any bucket, object, generation and change, the notification and the legacy storage event are delivered with the same source, subject and type |
| StorageAgreement.SameType | google/cloud/functions/internal/parse_cloud_event_storage.cc:42-49 | the table of notifications and the legacy table translate each change to the same type |
| StorageEvents.RewritesExactlyNotices | google/cloud/functions/internal/parse_cloud_event_storage.cc:22-65 | an event is replaced if and only if it carries a notice with decodable data, and then by that notice's storage event |
| StorageEvents.KeepsExactlyTheRest | google/cloud/functions/internal/parse_cloud_event_storage.cc:23-51 | an event passes unchanged if and only if it is no candidate or its payload is foreign; the remaining case is the error |
| StorageEvents.ContextIsKept | google/cloud/functions/internal/parse_cloud_event_storage.cc:56-61 | id, spec version and time never change, and a replaced event is no candidate any more |
| StorageEvents.RewriteIsIdempotent | google/cloud/functions/internal/parse_cloud_event_storage.cc:22-65 | rewriting twice is rewriting once |
| StorageEvents.RewriteLosesNothing | google/cloud/functions/internal/parse_cloud_event_storage.cc:42-62 | equal storage events come from the same type, bucket, object and payload |
| Base64.Base64Decode | google/cloud/functions/internal/base64_decode.cc:24-52 | padding, the one self-call, the count of `=` and the popping loop compute the decoding; nothing is popped from an empty string |
| Base64.RoundTrip | google/cloud/functions/internal/base64_decode.cc:24-52 | decoding the RFC 4648 section 4 encoding of any bytes, with any number of its `=` removed, gives the bytes |
| Base64.EncodeAfterDecode | google/cloud/functions/internal/base64_decode.cc:24-52 | encoding a decoded text gives the text back if and only if it is canonical (RFC 4648 section 3.5) |
| Base64.AcceptanceOfAnyText | google/cloud/functions/internal/base64_decode.cc:25-51 | which texts are decoded at all, and to how many bytes |
| Base64.Acceptance | google/cloud/functions/internal/base64_decode.cc:25-51 | n symbols and k `=` decode exactly for n%4=0,k=0; n%4=2,k<=2; n%4=3,k<=1, and to floor(3n/4) bytes |
| Base64.AlphabetInOrder | google/cloud/functions/internal/base64_decode.cc:36-49 | the symbols are those of RFC 4648 section 4, in its order |
| Base64.GroupsAreOneNumber | google/cloud/functions/internal/base64_decode.cc:34-38 | four groups of six bits and their three bytes are the same number, highest first |
| LegacyFields.NestedKeyIsNamed | google/cloud/functions/internal/parse_cloud_event_legacy.cc:25-34 | a non-empty text is found if and only if a non-empty path names it |
| LegacyFields.NamedNeedsObjects | google/cloud/functions/internal/parse_cloud_event_legacy.cc:25-34 | a path names a value exactly when each proper prefix names an object with the next key |
| LegacyFields.AlternativeOnlyWithoutContext | google/cloud/functions/internal/parse_cloud_event_legacy.cc:36-42 | a text given in the context always hides the top-level one, which otherwise decides, errors included |
| LegacyFields.CommonFieldsAreExact | google/cloud/functions/internal/parse_cloud_event_legacy.cc:121-143 | exactly which common fields a JSON value has: each from its own place in the context or at the top level, the service from the context or the type, the source from service and resource |
| LegacyFields.ContextDecides | google/cloud/functions/internal/parse_cloud_event_legacy.cc:121-143 | with a complete context two JSON values that agree on it have the same common fields |
| LegacyTypes.ServiceOfAnyPrefix | google/cloud/functions/internal/parse_cloud_event_legacy.cc:44-61 | the service is that of whichever prefix matches, so the order of the table does not matter; an error exactly if none does |
| LegacyTypes.TypesWithoutService | google/cloud/functions/internal/parse_cloud_event_legacy.cc:44-109 | of all types in the type table exactly two have no service |
| LegacyTypes.StorageTypesAreTranslated | google/cloud/functions/internal/parse_cloud_event_legacy.cc:69-76 | the four storage types of the table are translated, although they have the prefix of types that are kept |
| LegacyNames.GroupsAreExact | google/cloud/functions/internal/parse_cloud_event_legacy.cc:159-163 | matching finds the groups if and only if the text is made of them: the decomposition is unique |
| LegacyNames.ThreeGroupsAreExact | google/cloud/functions/internal/parse_cloud_event_legacy.cc:253-256 | the same for the Firestore expression |
| LegacyNames.StorageNameOfResource | google/cloud/functions/internal/parse_cloud_event_legacy.cc:157-172 | bucket B, any object O without line terminators and digits G give source `.../buckets/B` and subject exactly `objects/O` |
| LegacyNames.StorageNameIsExact | google/cloud/functions/internal/parse_cloud_event_legacy.cc:157-172 | exactly which resources are split, into which source and subject |
| LegacyNames.StorageNameLosesGenerationOnly | google/cloud/functions/internal/parse_cloud_event_legacy.cc:157-172 | whenever the expression matches, the original is source, `/`, subject and at most one `#` with digits |
| LegacyNames.GenerationIsKept | google/cloud/functions/internal/parse_cloud_event_legacy.cc:166-171 | a subject is kept if and only if it does not end in `#` and digits |
| LegacyNames.LocationOfDomain | google/cloud/functions/internal/parse_cloud_event_legacy.cc:189-204 | a location is found exactly for domains with a dot; it is the first label, but us-central1 for firebaseio.com |
| LegacyNames.DatabaseNameIsInjective | google/cloud/functions/internal/parse_cloud_event_legacy.cc:206-214 | no two (location, resource) pairs give the same source and subject, whatever `/` the location holds |
| LegacyNames.DatabaseNameOfResource | google/cloud/functions/internal/parse_cloud_event_legacy.cc:206-214 | a database resource gives its location, then its instance, as source and its reference as subject |
| LegacyNames.DatabaseNameNeedsForm | google/cloud/functions/internal/parse_cloud_event_legacy.cc:206-210 | exactly the resources with an instance and a reference are split |
| LegacyNames.FirestoreNameLosesNothing | google/cloud/functions/internal/parse_cloud_event_legacy.cc:251-260 | a matching resource is recovered from source and subject |
| LegacyNames.FirestoreNameOfResource | google/cloud/functions/internal/parse_cloud_event_legacy.cc:253-260 | a Firestore resource is split between its database and its documents |
| MetadataRenames.RenameKeys | google/cloud/functions/internal/parse_cloud_event_legacy.cc:240-247 | the loop renames key after key, in place, and leaves what is no object alone |
| MetadataRenames.RenameAllIsExact | google/cloud/functions/internal/parse_cloud_event_legacy.cc:240-247 | it fails if and only if an old name holds no text; else each non-empty text is at its new name and gone from its old one, and all other keys are untouched |
| MetadataRenames.RenameOrderDoesNotMatter | google/cloud/functions/internal/parse_cloud_event_legacy.cc:237-247 | any order of the renames gives the same result or the same failure |
| MetadataRenames.SecondRenamingChangesNothing | google/cloud/functions/internal/parse_cloud_event_legacy.cc:240-247 | renaming again changes nothing |
| MetadataRenames.MetadataByName | google/cloud/functions/internal/parse_cloud_event_legacy.cc:237-247 | createdAt is moved to createTime and lastSignedInAt to lastSignInTime, each exactly if it is a non-empty text; all other keys are untouched |
| LegacyEvents.ParseLegacyCommon | google/cloud/functions/internal/parse_cloud_event_legacy.cc:145-155 | the setters make the event of the common fields and the data, with the type of the table or, outside of it, the same type |
| LegacyEvents.ParseLegacyStorage | google/cloud/functions/internal/parse_cloud_event_legacy.cc:157-175 | the fields overwritten in place are those of the storage name |
| LegacyEvents.ParseLegacyPubSub | google/cloud/functions/internal/parse_cloud_event_legacy.cc:177-185 | the message edited in place is the data merged with its stamps |
| LegacyEvents.ParseLegacyFirebaseDatabase | google/cloud/functions/internal/parse_cloud_event_legacy.cc:187-217 | the fields overwritten in place are those of the database name, with the location of the domain |
| LegacyEvents.ParseLegacyFirebaseAuth | google/cloud/functions/internal/parse_cloud_event_legacy.cc:219-249 | the three checks, the subject and the renamed metadata |
| LegacyEvents.ParseLegacyFirestore | google/cloud/functions/internal/parse_cloud_event_legacy.cc:251-263 | the fields overwritten in place are those of the Firestore name |
| LegacyEvents.ParseCloudEventLegacy | google/cloud/functions/internal/parse_cloud_event_legacy.cc:265-291 | common fields, then the dispatch on the service |
| LegacyEvents.LegacyAcceptance | google/cloud/functions/internal/parse_cloud_event_legacy.cc:121-283 | exactly which JSON values are read as legacy events: known type, valid time, and what each service asks for |
| LegacyEvents.LegacyContextIsKept | google/cloud/functions/internal/parse_cloud_event_legacy.cc:145-283 | whatever the service: id and time are those of the common fields, the type is translated by the table first, the spec version is 1.0 |
| LegacyEvents.TypeIsTranslated | google/cloud/functions/internal/parse_cloud_event_legacy.cc:63-109 | the type of the event is that of the table for the types in it, the same for other storage types, and an error for the rest |
| LegacyEvents.LegacyTypeIsTranslated | google/cloud/functions/internal/parse_cloud_event_legacy.cc:121-155 | the same from the JSON value, whose type is looked for in the context first |
| LegacyEvents.PlainPayload | google/cloud/functions/internal/parse_cloud_event_legacy.cc:157-283 | the payload is the data or null for storage, database and Firestore, and the whole JSON value for unknown services |
| LegacyEvents.EventIsNamed | google/cloud/functions/internal/parse_cloud_event_legacy.cc:157-263 | storage, database and Firestore events get source and subject from a resource of the right form, and keep the source without a subject otherwise |
| LegacyEvents.LegacyResourceIsKept | google/cloud/functions/internal/parse_cloud_event_legacy.cc:134-283 | whatever the service but the database: source and subject name the resource up to one generation |
| LegacyEvents.LegacyStorageEvent | google/cloud/functions/internal/parse_cloud_event_legacy.cc:157-175 | a storage event with a full resource name is delivered under its bucket and object |
| LegacyEvents.LegacyDatabaseEvent | google/cloud/functions/internal/parse_cloud_event_legacy.cc:187-217 | a database event is delivered under its location and instance, and its reference |
| LegacyEvents.LegacyFirestoreEvent | google/cloud/functions/internal/parse_cloud_event_legacy.cc:251-263 | a Firestore event is delivered under its database, and its document |
| LegacyEvents.PubSubPayload | google/cloud/functions/internal/parse_cloud_event_legacy.cc:177-185 | the payload wraps the data with `messageId` and `publishTime` set when known, all other keys as they were |
| LegacyEvents.AuthPayload | google/cloud/functions/internal/parse_cloud_event_legacy.cc:219-249 | the subject names the user; the payload is the data with its metadata renamed and all other keys as they were |
| FormUrl.UrlDecode | examples/site/http_content/http_content.cc:56-78 | the index loop with its jumps computes the decoding, and its guard is never jumped over |
| FormUrl.Decode | examples/site/http_content/http_content.cc:56-78 | the output is never longer than the input |
| FormUrl.DecodeInvertsEncoders | examples/site/http_content/http_content.cc:59-76 | for every encoder that escapes at least `%`: decoding gives the text back if and only if no escape denotes a byte above 0x7F |
| FormUrl.DecodeRendered | examples/site/http_content/http_content.cc:59-76 | each escape above 0x7F stays as three characters |
| FormUrl.DecodeWithoutPercent | examples/site/http_content/http_content.cc:59-62 | a text without `%` is unchanged |
| FormUrl.DecodeIsTokenwise | examples/site/http_content/http_content.cc:56-78 | for any reading of a text as characters, readable escapes and stray `%`: characters stay, escapes become their bytes, a stray `%` is dropped in the last two places and kept elsewhere |
| FormUrl.EveryTextHasAReading | examples/site/http_content/http_content.cc:56-78 | every text has such a reading |
| FormUrl.ReadingIsUnique | examples/site/http_content/http_content.cc:56-78 | and only one |
| FormUrl.HexDigitsInOrder | examples/site/http_content/http_content.cc:64-68 | the hexadecimal digits of both cases, in order |
| FormUrl.SignIsRead | examples/site/http_content/http_content.cc:65-68 | a minus sign and a digit are read as a negative `char` |
| HeaderEncoding.FormDecoderInvertsEncoding | examples/site/http_content/http_content.cc:56-78 | the decoder inverts the percent-encoding of CloudEvents headers on ASCII texts |
| FormUrl.ParseWwwFormUrlencoded | examples/site/http_content/http_content.cc:83-98 | the token and map loops give each key the value that the first of the text's tokens with that key binds it to |
| FormUrl.TokensAreExact | examples/site/http_content/http_content.cc:85-91 | for any text: its tokens are the one list without separators that, each with its own, makes up the text; only a last one that is not empty may lack it |
| FormUrl.ParseIsExact | examples/site/http_content/http_content.cc:92-97 | for any text: a key is what the part before the first `=` of the first such token decodes to, its value what the rest does; a token without `=` is its own value |
| FormUrl.ParseOfBareText | examples/site/http_content/http_content.cc:94-95 | a text without separators is its own key and value |
| FormUrl.TokensOfPrint | examples/site/http_content/http_content.cc:85-91 | a printed list of entries is split into exactly its entries |
| FormUrl.RoundTrip | examples/site/http_content/http_content.cc:83-98 | any map of ASCII texts, its entries in any order and with any sufficient escaping, is parsed back |
| FormUrl.RoundTripIsExact | examples/site/http_content/http_content.cc:83-98 | a map, each key printed once, is parsed back if and only if no escape in its text denotes a byte above 0x7F |
| FormUrl.FirstBindingWins | examples/site/http_content/http_content.cc:93-96 | the first token that decodes to a key decides its value |
| FormData.StrSplit | examples/site/http_form_data/http_form_data.cc:75-77 | splitting by `Find` and skipping empty pieces |
| FormData.Parts | examples/site/http_form_data/http_form_data.cc:73-77 | the parts of a payload under the delimiter of its header, or the error of a header without boundary |
| FormData.PiecesInterleave | examples/site/http_form_data/http_form_data.cc:148-160 | for any text: pieces and markers in turn give the text back |
| FormData.PiecesAreSplit | examples/site/http_form_data/http_form_data.cc:148-160 | for any text: no piece holds a part marker, and the last holds no body marker |
| FormData.NoStraddling | examples/site/http_form_data/http_form_data.cc:148-160 | no occurrence of a marker starts inside a clean part and ends in the next marker |
| FormData.RoundTrip | examples/site/http_form_data/http_form_data.cc:75-77 | for a boundary without CR, a body of a clean preamble, non-empty clean parts and an epilogue without markers (RFC 2046 section 5.1.1) is split into exactly those, an empty preamble or epilogue left out |
| FormData.FirstBoundaryNeedsLineBreak | examples/site/http_form_data/http_form_data.cc:143-160 | without a line break before the first boundary, the first part is returned with that boundary line before it |
| MultipartLayout.CloseNeedsLineBreak | examples/site/http_form_data/http_form_data.cc:143-160 | without a line break after the last boundary, the part is returned with that boundary behind it |
| MultipartLayout.BoundaryStays | examples/site/http_form_data/http_form_data.cc:148-160 | a padded boundary, or a last one without a line break, stays in a piece |
| MultipartSplit.SplitsExactlyStrictBodies | examples/site/http_form_data/http_form_data.cc:75-77 | of all bodies that RFC 2046 section 5.1.1 allows, with any preamble and epilogue, optional breaks and padding: exactly those with both breaks, no padding, no empty part and no marker in preamble or epilogue that is taken first are split into what was written |
| MultipartSplit.PartsAreStrict | examples/site/http_form_data/http_form_data.cc:148-160 | if a part and all that follow it are returned, the rest of the body has its breaks, no padding and an epilogue without markers |
| MultipartSplit.PreambleFitsExactly | examples/site/http_form_data/http_form_data.cc:150-154 | the first part marker is found behind the preamble if and only if the preamble and the break after it hold none |
| MultipartSplit.EpilogueSwallowsClosing | examples/site/http_form_data/http_form_data.cc:150-158 | a strict body with a boundary line in its epilogue, for any part, that is not split into what was written |
| MultipartSplit.SplitsIntoPartsAlone | examples/site/http_form_data/http_form_data.cc:75-77 | with clean preamble and epilogue, the parts alone are returned if and only if moreover those two are empty |
| FormData.BoundaryOfHeader | examples/site/http_form_data/http_form_data.cc:127-146 | the first boundary parameter of any header, in any case, after any other parameters and before any separator, gives the markers of that boundary without its quotes |
| FormData.NameInAnyCase | examples/site/http_form_data/http_form_data.cc:128-130 | the name of the parameter is recognised exactly in any mixture of cases |
| FormData.SeparatorsAre | examples/site/http_form_data/http_form_data.cc:128-130 | the characters that end a parameter |
| FormData.HeaderWithoutBoundary | examples/site/http_form_data/http_form_data.cc:132-140 | a header is an error if and only if it has no boundary parameter |
| FormData.QuotedBoundaryIsExact | examples/site/http_form_data/http_form_data.cc:132-146 | a boundary without quotes, printed in quotes, gives its markers if and only if it has no separator |
| FormData.QuotedBoundaryIsCut | examples/site/http_form_data/http_form_data.cc:132-137 | a quoted boundary with a separator is read up to its first separator, with the opening quote |
| FormData.QuotedSpaceIsCut | examples/site/http_form_data/http_form_data.cc:132-137 | the boundary `a b` in quotes is read as `"a` |
| FormData.FormRoundTrip | examples/site/http_form_data/http_form_data.cc:73-77 | header and body together, for any boundary without CR: the body is split into the printed parts by the delimiter of the boundary, which a plain header gives for every token that does not start with a quote and a quoted one for every token and for nothing with a separator |

## Left out

- Sockets, Boost.Asio and Boost.Beast: a request is delivered whole, and headers are a map with one value per lower-case name.
- Threads and clocks: a session finishes between two steps of the server; waiting is whether it has finished when polled.
- The calls of the user function from several sessions interleave; `Framework` takes what was called before each request as given.
- Option parsing, the listening socket and the port (`framework_impl.cc:72-84`): no rules of their own in the modelled part.
- JSON text and RFC 3339 time: functions of which nothing is assumed. Printing a value that came from parsing does not throw in the original, since parsing admits valid UTF-8 only.
- The log, and the headers of error responses.
- Memory exhaustion, and a `shutdown()` that throws; the one that `RunImpl` passes does not.
- `Sessions.IsUnsendable` is the rule by which Beast's `prepare_payload` throws: a body in a response with status 1xx, 204 or 304.
- The HTTP overload of `CallUserFunction`, `HttpRequest` and `HttpResponse`: wrappers around Beast.
- The `std::regex` engine: each expression is the predicate it denotes.
- The substring searcher, `absl::StrSplit` and Boost's base64 iterator: taken as what their libraries promise (leftmost match; pieces between delimiters; four characters to three bytes, `=` as zero, other characters an error).
- Part descriptors (`http_form_data.cc:78-114`): the `bodySize` there is the size of the header component, which supports no useful claim.
- Platforms with an unsigned `char`, on which `urldecode` also decodes escapes above 0x7F.
- The other examples, the integration servers, and the build and deployment scripts: calls of client libraries.
- JsonEvents.ParseData: a method of its own, where the original has these lines at the end of the function that reads a value.
