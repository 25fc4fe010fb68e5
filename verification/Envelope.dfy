/**
 * The event envelope (CloudEvents 1.0) and its journey through the broker as
 * message properties in binary content mode. Message bodies are byte strings;
 * JSON text is a parameter.
 */
module Envelope {
  import opened Wrappers

  const EVENT_SPEC_VERSION := "1.0"
  const EVENT_DATA_CONTENT_TYPE := "application/json"
  const EVENT_BINARY_CONTENT_TYPE := "application/octet-stream"
  const EVENT_STRUCTURED_CONTENT_TYPE := "application/cloudevents+json"
  const UNKNOWN_EVENT_SOURCE := "urn:tropis:unknown-source"
  const DEFAULT_EVENT_SCHEMA_VERSION := "1"
  const EVENT_SOURCE := "/tropis/backend"
  const DEFAULT_EVENT_TYPE := "tropis.message.published"

  /** The property names a message can carry; an undefined property is absent. */
  type Properties = map<string, string>

  function Get(props: Properties, key: string): Option<string> {
    if key in props then Some(props[key]) else None
  }

  function Put(props: Properties, key: string, value: Option<string>): Properties {
    if value.Some? then props[key := value.value] else props
  }

  /** A value the source keeps only when it is truthy. */
  function NonEmpty(value: Option<string>): Option<string> {
    if value == Some("") then None else value
  }

  function OrElse(value: Option<string>, default: string): string {
    if value.Some? then value.value else default
  }

  function ContentType(value: Option<string>): string {
    if value == Some(EVENT_BINARY_CONTENT_TYPE) then EVENT_BINARY_CONTENT_TYPE else EVENT_DATA_CONTENT_TYPE
  }

  datatype Envelope<T> = Envelope(
    id: string, source: string, eventType: string, time: string, subject: Option<string>, datacontenttype: string,
    dataschema: Option<string>, tenantid: Option<string>, traceparent: Option<string>, tracestate: Option<string>,
    schemaversion: string, data: T)

  datatype Attributes = Attributes(
    id: string, source: string, eventType: string, time: string, tenantid: Option<string>, subject: Option<string>,
    schemaversion: Option<string>, dataschema: Option<string>, datacontenttype: Option<string>,
    traceparent: Option<string>, tracestate: Option<string>)

  function CreateEventEnvelope<T>(data: T, a: Attributes): Envelope<T> {
    Envelope(
      a.id, if a.source == "" then UNKNOWN_EVENT_SOURCE else a.source, a.eventType, a.time, NonEmpty(a.subject),
      ContentType(a.datacontenttype), NonEmpty(a.dataschema), NonEmpty(a.tenantid), NonEmpty(a.traceparent),
      NonEmpty(a.tracestate), OrElse(a.schemaversion, DEFAULT_EVENT_SCHEMA_VERSION), data)
  }

  /** What no envelope is built without: a source, a known content type, no empty optional attribute. */
  predicate Normal<T>(e: Envelope<T>) {
    && e.source != "" && e.datacontenttype in {EVENT_DATA_CONTENT_TYPE, EVENT_BINARY_CONTENT_TYPE}
    && e.subject != Some("") && e.dataschema != Some("") && e.tenantid != Some("")
    && e.traceparent != Some("") && e.tracestate != Some("")
  }

  lemma NormalExactlyIfBuilt<T>(e: Envelope<T>)
    ensures Normal(e) <==> exists a :: CreateEventEnvelope(e.data, a) == e
  {
    var a := Attributes(e.id, e.source, e.eventType, e.time, e.tenantid, e.subject, Some(e.schemaversion),
                        e.dataschema, Some(e.datacontenttype), e.traceparent, e.tracestate);
    if Normal(e) {
      assert CreateEventEnvelope(e.data, a) == e;
    }
  }

  // ------------------------------------------------- Binary-mode properties

  datatype Name = SpecVersion | Id | Source | Type | Time | Subject | DataContentType | DataSchema | TenantId | SchemaVersion

  const BINARY_ATTRIBUTES :=
    [SpecVersion, Id, Source, Type, Time, Subject, DataContentType, DataSchema, TenantId, SchemaVersion]

  function NameText(name: Name): string {
    match name
    case SpecVersion => "specversion"
    case Id => "id"
    case Source => "source"
    case Type => "type"
    case Time => "time"
    case Subject => "subject"
    case DataContentType => "datacontenttype"
    case DataSchema => "dataschema"
    case TenantId => "tenantid"
    case SchemaVersion => "schemaversion"
  }

  function Key(name: Name): string {
    "ce_" + NameText(name)
  }

  lemma KeysDiffer(m: Name, n: Name)
    ensures Key(m) == Key(n) ==> m == n
    ensures Key(m) !in {"traceparent", "tracestate", "content-type"}
  {
    assert Key(m)[1] == 'e' && Key(m)[3..] == NameText(m) && Key(n)[3..] == NameText(n);
    assert NameText(Type)[1] == 'y' && NameText(Time)[1] == 'i';
    assert "traceparent"[1] == 'r' && "tracestate"[1] == 'r' && "content-type"[1] == 'o';
  }

  function AttributeOf<T>(e: Envelope<T>, name: Name): Option<string> {
    match name
    case SpecVersion => Some(EVENT_SPEC_VERSION)
    case Id => Some(e.id)
    case Source => Some(e.source)
    case Type => Some(e.eventType)
    case Time => Some(e.time)
    case Subject => e.subject
    case DataContentType => Some(e.datacontenttype)
    case DataSchema => e.dataschema
    case TenantId => e.tenantid
    case SchemaVersion => Some(e.schemaversion)
  }

  /** The properties say every attribute of the envelope under its own name, and nothing else. */
  ghost predicate Carries<T>(props: Properties, e: Envelope<T>) {
    && (forall name :: Get(props, Key(name)) == AttributeOf(e, name))
    && Get(props, "traceparent") == NonEmpty(e.traceparent)
    && Get(props, "tracestate") == NonEmpty(e.tracestate)
    && forall key | key in props :: key in {"traceparent", "tracestate"} || exists name :: key == Key(name)
  }

  /** The same with every property name and attribute spelled out. */
  predicate SpeltOut<T>(props: Properties, e: Envelope<T>) {
    && Get(props, "ce_specversion") == Some("1.0")
    && Get(props, "ce_id") == Some(e.id) && Get(props, "ce_source") == Some(e.source)
    && Get(props, "ce_type") == Some(e.eventType) && Get(props, "ce_time") == Some(e.time)
    && Get(props, "ce_subject") == e.subject && Get(props, "ce_datacontenttype") == Some(e.datacontenttype)
    && Get(props, "ce_dataschema") == e.dataschema && Get(props, "ce_tenantid") == e.tenantid
    && Get(props, "ce_schemaversion") == Some(e.schemaversion)
    && (e.traceparent != Some("") ==> Get(props, "traceparent") == e.traceparent)
    && (e.tracestate != Some("") ==> Get(props, "tracestate") == e.tracestate)
  }

  lemma KeysSpeltOut()
    ensures Key(SpecVersion) == "ce_specversion" && Key(Id) == "ce_id" && Key(Source) == "ce_source"
    ensures Key(Type) == "ce_type" && Key(Time) == "ce_time" && Key(Subject) == "ce_subject"
    ensures Key(DataContentType) == "ce_datacontenttype" && Key(DataSchema) == "ce_dataschema"
    ensures Key(TenantId) == "ce_tenantid" && Key(SchemaVersion) == "ce_schemaversion"
  {
  }

  lemma CarriesSpeltOut<T>(props: Properties, e: Envelope<T>)
    requires Carries(props, e)
    ensures SpeltOut(props, e)
  {
    KeysSpeltOut();
    assert Get(props, Key(SpecVersion)) == Some(EVENT_SPEC_VERSION) && Get(props, Key(Id)) == Some(e.id);
    assert Get(props, Key(Source)) == Some(e.source) && Get(props, Key(Type)) == Some(e.eventType);
    assert Get(props, Key(Time)) == Some(e.time) && Get(props, Key(Subject)) == e.subject;
    assert Get(props, Key(DataContentType)) == Some(e.datacontenttype) && Get(props, Key(DataSchema)) == e.dataschema;
    assert Get(props, Key(TenantId)) == e.tenantid && Get(props, Key(SchemaVersion)) == Some(e.schemaversion);
  }

  lemma EveryNameListed(name: Name) returns (i: nat)
    ensures i < |BINARY_ATTRIBUTES| && BINARY_ATTRIBUTES[i] == name
  {
    i := match name
      case SpecVersion => 0
      case Id => 1
      case Source => 2
      case Type => 3
      case Time => 4
      case Subject => 5
      case DataContentType => 6
      case DataSchema => 7
      case TenantId => 8
      case SchemaVersion => 9;
  }

  /** These attributes, and nothing else. */
  ghost predicate Written<T>(props: Properties, e: Envelope<T>, names: seq<Name>) {
    && (forall name | name in names :: Get(props, Key(name)) == AttributeOf(e, name))
    && forall key | key in props :: exists name | name in names :: key == Key(name)
  }

  lemma WrittenOneMore<T>(props: Properties, e: Envelope<T>, names: seq<Name>, next: Name)
    requires next !in names && Written(props, e, names)
    ensures Written(Put(props, Key(next), AttributeOf(e, next)), e, names + [next])
  {
    forall name | name in names
      ensures Key(name) != Key(next)
    {
      KeysDiffer(name, next);
    }
    assert next in names + [next];
  }

  lemma ListedOnce(i: nat)
    requires i < |BINARY_ATTRIBUTES|
    ensures BINARY_ATTRIBUTES[i] !in BINARY_ATTRIBUTES[..i]
    ensures BINARY_ATTRIBUTES[..i + 1] == BINARY_ATTRIBUTES[..i] + [BINARY_ATTRIBUTES[i]]
  {
  }

  lemma AllWritten<T>(props: Properties, e: Envelope<T>)
    requires Written(props, e, BINARY_ATTRIBUTES)
    ensures Carries(props, e.(traceparent := None, tracestate := None))
  {
    var untraced := e.(traceparent := None, tracestate := None);
    forall name: Name
      ensures Get(props, Key(name)) == AttributeOf(untraced, name)
    {
      var i := EveryNameListed(name);
      assert name in BINARY_ATTRIBUTES;
    }
    forall name: Name
      ensures Key(name) !in {"traceparent", "tracestate"}
    {
      KeysDiffer(name, name);
    }
  }

  lemma TraceWritten<T>(props: Properties, e: Envelope<T>)
    requires Carries(props, e.(traceparent := None, tracestate := None))
    ensures Carries(Put(Put(props, "traceparent", NonEmpty(e.traceparent)), "tracestate", NonEmpty(e.tracestate)), e)
  {
    var untraced := e.(traceparent := None, tracestate := None);
    var props' := Put(Put(props, "traceparent", NonEmpty(e.traceparent)), "tracestate", NonEmpty(e.tracestate));
    forall name: Name
      ensures Get(props', Key(name)) == AttributeOf(e, name)
    {
      KeysDiffer(name, name);
      assert Get(props', Key(name)) == Get(props, Key(name)) == AttributeOf(untraced, name);
    }
    assert "traceparent"[5] != "tracestate"[5];
  }

  method EnvelopeToProperties<T>(e: Envelope<T>) returns (props: Properties)
    ensures Carries(props, e) && SpeltOut(props, e)
  {
    props := map[];
    for i := 0 to |BINARY_ATTRIBUTES|
      invariant Written(props, e, BINARY_ATTRIBUTES[..i])
    {
      ListedOnce(i);
      WrittenOneMore(props, e, BINARY_ATTRIBUTES[..i], BINARY_ATTRIBUTES[i]);
      var value := AttributeOf(e, BINARY_ATTRIBUTES[i]);
      if value.Some? {
        props := props[Key(BINARY_ATTRIBUTES[i]) := value.value];
      }
    }
    assert BINARY_ATTRIBUTES[..|BINARY_ATTRIBUTES|] == BINARY_ATTRIBUTES;
    AllWritten(props, e);
    TraceWritten(props, e);
    if NonEmpty(e.traceparent).Some? {
      props := props["traceparent" := e.traceparent.value];
    }
    if NonEmpty(e.tracestate).Some? {
      props := props["tracestate" := e.tracestate.value];
    }
    CarriesSpeltOut(props, e);
  }

  function EnvelopeFromProperties<T>(props: Properties, data: T): Option<Envelope<T>> {
    var id, eventType := NonEmpty(Get(props, Key(Id))), NonEmpty(Get(props, Key(Type)));
    if Get(props, Key(SpecVersion)) != Some(EVENT_SPEC_VERSION) || id.None? || eventType.None? then None
    else Some(Envelope(
      id.value, OrElse(NonEmpty(Get(props, Key(Source))), UNKNOWN_EVENT_SOURCE), eventType.value,
      OrElse(Get(props, Key(Time)), ""), NonEmpty(Get(props, Key(Subject))),
      ContentType(Get(props, Key(DataContentType))), NonEmpty(Get(props, Key(DataSchema))),
      NonEmpty(Get(props, Key(TenantId))), NonEmpty(Get(props, "traceparent")), NonEmpty(Get(props, "tracestate")),
      OrElse(Get(props, Key(SchemaVersion)), DEFAULT_EVENT_SCHEMA_VERSION), data))
  }

  /** Reading back what was written gives the envelope exactly when it was built, with an id and a type. */
  lemma PropertiesRoundTripExactly<T>(e: Envelope<T>, props: Properties)
    requires Carries(props, e)
    ensures EnvelopeFromProperties(props, e.data) == Some(e) <==> Normal(e) && e.id != "" && e.eventType != ""
  {
    assert Get(props, Key(SpecVersion)) == Some(EVENT_SPEC_VERSION);
    assert Get(props, Key(Id)) == Some(e.id) && Get(props, Key(Type)) == Some(e.eventType);
    assert Get(props, Key(Source)) == Some(e.source) && Get(props, Key(Time)) == Some(e.time);
    assert Get(props, Key(Subject)) == e.subject && Get(props, Key(DataContentType)) == Some(e.datacontenttype);
    assert Get(props, Key(DataSchema)) == e.dataschema && Get(props, Key(TenantId)) == e.tenantid;
    assert Get(props, Key(SchemaVersion)) == Some(e.schemaversion);
  }

  /** Any properties at all: what is read is a built envelope with an id and a type, or nothing. */
  lemma OnlyNormalEnvelopesAreRead<T>(props: Properties, data: T)
    ensures var e := EnvelopeFromProperties(props, data);
            e.Some? ==> Normal(e.value) && e.value.data == data && e.value.id != "" && e.value.eventType != ""
  {
  }

  /** What is read, property by property: an envelope exactly for version 1.0 with an id and a type. */
  lemma ReadSpeltOut<T>(props: Properties, data: T)
    ensures var e := EnvelopeFromProperties(props, data);
            && (e.Some? <==> Get(props, "ce_specversion") == Some("1.0") && NonEmpty(Get(props, "ce_id")).Some?
                             && NonEmpty(Get(props, "ce_type")).Some?)
            && (e.Some? ==>
                  && Get(props, "ce_id") == Some(e.value.id) && Get(props, "ce_type") == Some(e.value.eventType)
                  && IsOr(e.value.source, NonEmpty(Get(props, "ce_source")), "urn:tropis:unknown-source")
                  && IsOr(e.value.time, Get(props, "ce_time"), "") && IsOr(e.value.schemaversion, Get(props, "ce_schemaversion"), "1")
                  && IsUnlessEmpty(e.value.subject, Get(props, "ce_subject")) && IsUnlessEmpty(e.value.tenantid, Get(props, "ce_tenantid"))
                  && IsUnlessEmpty(e.value.dataschema, Get(props, "ce_dataschema"))
                  && IsUnlessEmpty(e.value.traceparent, Get(props, "traceparent"))
                  && IsUnlessEmpty(e.value.tracestate, Get(props, "tracestate"))
                  && e.value.datacontenttype == (if Get(props, "ce_datacontenttype") == Some("application/octet-stream")
                                                 then "application/octet-stream" else "application/json"))
  {
    KeysSpeltOut();
  }

  // ------------------------------------------------------------ The broker

  type Bytes = seq<bv8>

  /** Decoded JSON; a number is its text. */
  datatype Json = Null | Bool(b: bool) | Number(digits: string) | Text(text: string) | Array(items: seq<Json>) | Object(members: map<string, Json>)

  /** JSON.parse inside its try, and JSON.stringify. */
  datatype Codec = Codec(parse: Bytes -> Option<Json>, stringify: Json -> Bytes)

  datatype Payload = Buffer(bytes: Bytes) | Value(json: Json)

  /** The data of an envelope: undefined, a decoded body, or the raw body. */
  datatype Data = Undefined | Decoded(json: Json) | Raw(bytes: Bytes)

  /** The publisher's event options; an unset one gets a default. */
  datatype Event = Event(
    id: Option<string>, source: Option<string>, eventType: Option<string>, time: Option<string>,
    tenantId: Option<string>, subject: Option<string>, schemaVersion: Option<string>)

  /** What the code reads around it: a fresh id, the clock, the tenant in scope, the trace context. */
  datatype Ambient = Ambient(
    freshId: string, now: string, tenant: Option<string>, traceparent: Option<string>, tracestate: Option<string>)

  function OutgoingEnvelope(payload: Payload, event: Event, ambient: Ambient): Envelope<Data> {
    CreateEventEnvelope(
      if payload.Buffer? then Undefined else Decoded(payload.json),
      Attributes(
        OrElse(event.id, ambient.freshId), OrElse(event.source, EVENT_SOURCE),
        OrElse(event.eventType, DEFAULT_EVENT_TYPE), OrElse(event.time, ambient.now),
        if event.tenantId.Some? then event.tenantId else ambient.tenant, event.subject, event.schemaVersion, None,
        if payload.Buffer? then Some(EVENT_BINARY_CONTENT_TYPE) else None, ambient.traceparent, ambient.tracestate))
  }

  /** The publisher's option, or else the default. */
  predicate IsOr(value: string, option: Option<string>, default: string) {
    (option.Some? ==> value == option.value) && (option.None? ==> value == default)
  }

  /** The publisher's option, absent when it is unset or empty. */
  predicate IsUnlessEmpty(value: Option<string>, option: Option<string>) {
    if option.Some? && option.value != "" then value == option else value == None
  }

  /** Every attribute and the data of the envelope, from what the publisher passed and what the code reads around it. */
  predicate Says(e: Envelope<Data>, payload: Payload, event: Event, ambient: Ambient) {
    && IsOr(e.id, event.id, ambient.freshId) && IsOr(e.eventType, event.eventType, "tropis.message.published")
    && (event.source != Some("") ==> IsOr(e.source, event.source, "/tropis/backend"))
    && (event.source == Some("") ==> e.source == "urn:tropis:unknown-source")
    && IsOr(e.time, event.time, ambient.now) && IsOr(e.schemaversion, event.schemaVersion, "1")
    && IsUnlessEmpty(e.subject, event.subject) && e.dataschema == None
    && IsUnlessEmpty(e.tenantid, if event.tenantId.Some? then event.tenantId else ambient.tenant)
    && IsUnlessEmpty(e.traceparent, ambient.traceparent) && IsUnlessEmpty(e.tracestate, ambient.tracestate)
    && (payload.Buffer? ==> e.datacontenttype == "application/octet-stream" && e.data == Undefined)
    && (payload.Value? ==> e.datacontenttype == "application/json" && e.data == Decoded(payload.json))
  }

  datatype Outgoing = Outgoing(data: Bytes, properties: Properties, envelope: Envelope<Data>)

  /** The message says the envelope, over whatever properties the caller passed. */
  ghost predicate SaysOver(message: Outgoing, caller: Properties) {
    exists props :: Carries(props, message.envelope) && message.properties == caller + props
  }

  method EncodeOutgoing(codec: Codec, payload: Payload, event: Event, caller: Properties, ambient: Ambient)
      returns (message: Outgoing)
    ensures message.data == if payload.Buffer? then payload.bytes else codec.stringify(payload.json)
    ensures Says(message.envelope, payload, event, ambient)
    ensures SaysOver(message, caller)
  {
    var envelope := OutgoingEnvelope(payload, event, ambient);
    var props := EnvelopeToProperties(envelope);
    message := Outgoing(if payload.Buffer? then payload.bytes else codec.stringify(payload.json), caller + props, envelope);
  }

  predicate IsStructuredEnvelope(body: Json) {
    && body.Object? && {"specversion", "id", "type", "data"} <= body.members.Keys
    && body.members["specversion"] == Text(EVENT_SPEC_VERSION)
    && body.members["id"].Text? && body.members["type"].Text?
  }

  /** The envelope as the handler sees it: rebuilt from properties, or the structured body itself. */
  datatype Received = Rebuilt(envelope: Envelope<Data>) | AsSent(body: Json)

  datatype Incoming = Incoming(data: Bytes, envelope: Received)

  /** The decoded body, or the raw one when it is not JSON or is the JSON null. */
  function BodyOf(codec: Codec, data: Bytes): Data {
    var parsed := codec.parse(data);
    if parsed.None? || parsed.value.Null? then Raw(data) else Decoded(parsed.value)
  }

  function DecodeIncoming(codec: Codec, data: Bytes, properties: Properties, ambient: Ambient): Incoming {
    var structured :=
      Get(properties, "content-type") == Some(EVENT_STRUCTURED_CONTENT_TYPE) || Get(properties, Key(SpecVersion)).None?;
    var parsed := codec.parse(data);
    if structured && parsed.Some? && IsStructuredEnvelope(parsed.value) then
      Incoming(codec.stringify(parsed.value.members["data"]), AsSent(parsed.value))
    else
      var read := EnvelopeFromProperties(properties, BodyOf(codec, data));
      Incoming(data, Rebuilt(
        if read.Some? then read.value
        else CreateEventEnvelope(BodyOf(codec, data), Attributes(
          ambient.freshId, UNKNOWN_EVENT_SOURCE, DEFAULT_EVENT_TYPE, ambient.now, None, None, None, None, None,
          Get(properties, "traceparent"), Get(properties, "tracestate")))))
  }

  /** The caller's properties say nothing under a name the envelope leaves unset. */
  predicate LeavesAlone(caller: Properties, key: string, attribute: Option<string>) {
    attribute.Some? || NonEmpty(Get(caller, key)).None?
  }

  /** What a caller can see before publishing: none of its properties can pass for an attribute. */
  predicate CallerLeavesAttributesAlone<T>(caller: Properties, e: Envelope<T>) {
    && LeavesAlone(caller, Key(Subject), e.subject)
    && LeavesAlone(caller, Key(DataSchema), e.dataschema)
    && LeavesAlone(caller, Key(TenantId), e.tenantid)
    && LeavesAlone(caller, "traceparent", e.traceparent)
    && LeavesAlone(caller, "tracestate", e.tracestate)
  }

  /** The caller labels as structured a body that is a structured envelope. */
  predicate PosesAsStructured(codec: Codec, data: Bytes, caller: Properties) {
    && Get(caller, "content-type") == Some(EVENT_STRUCTURED_CONTENT_TYPE)
    && codec.parse(data).Some? && IsStructuredEnvelope(codec.parse(data).value)
  }

  lemma MergedProperties<T>(caller: Properties, props: Properties, e: Envelope<T>, name: Name)
    requires Carries(props, e)
    ensures Get(caller + props, Key(name))
         == if AttributeOf(e, name).Some? then AttributeOf(e, name) else Get(caller, Key(name))
  {
    assert Get(props, Key(name)) == AttributeOf(e, name);
  }

  lemma MergedReads<T>(caller: Properties, props: Properties, e: Envelope<T>, data: T)
    requires Carries(props, e) && Normal(e)
    ensures var read := EnvelopeFromProperties(caller + props, data);
            && (read.Some? <==> e.id != "" && e.eventType != "")
            && (read.Some? ==> (read.value == e.(data := data) <==> CallerLeavesAttributesAlone(caller, e)))
  {
    MergedProperties(caller, props, e, SpecVersion);
    MergedProperties(caller, props, e, Id);
    MergedProperties(caller, props, e, Source);
    MergedProperties(caller, props, e, Type);
    MergedProperties(caller, props, e, Time);
    MergedProperties(caller, props, e, Subject);
    MergedProperties(caller, props, e, DataContentType);
    MergedProperties(caller, props, e, DataSchema);
    MergedProperties(caller, props, e, TenantId);
    MergedProperties(caller, props, e, SchemaVersion);
    MergedTrace(caller, props, e);
    MergedFields(caller, caller + props, e, data);
  }

  lemma MergedTrace<T>(caller: Properties, props: Properties, e: Envelope<T>)
    requires Carries(props, e) && Normal(e)
    ensures Get(caller + props, "traceparent") == if e.traceparent.Some? then e.traceparent else Get(caller, "traceparent")
    ensures Get(caller + props, "tracestate") == if e.tracestate.Some? then e.tracestate else Get(caller, "tracestate")
  {
  }

  /** The reading of merged properties, field by field. */
  lemma MergedFields<T>(caller: Properties, merged: Properties, e: Envelope<T>, data: T)
    requires Normal(e)
    requires Get(merged, Key(SpecVersion)) == Some(EVENT_SPEC_VERSION)
    requires Get(merged, Key(Id)) == Some(e.id) && Get(merged, Key(Type)) == Some(e.eventType)
    requires Get(merged, Key(Source)) == Some(e.source) && Get(merged, Key(Time)) == Some(e.time)
    requires Get(merged, Key(Subject)) == if e.subject.Some? then e.subject else Get(caller, Key(Subject))
    requires Get(merged, Key(DataContentType)) == Some(e.datacontenttype)
    requires Get(merged, Key(DataSchema)) == if e.dataschema.Some? then e.dataschema else Get(caller, Key(DataSchema))
    requires Get(merged, Key(TenantId)) == if e.tenantid.Some? then e.tenantid else Get(caller, Key(TenantId))
    requires Get(merged, Key(SchemaVersion)) == Some(e.schemaversion)
    requires Get(merged, "traceparent") == if e.traceparent.Some? then e.traceparent else Get(caller, "traceparent")
    requires Get(merged, "tracestate") == if e.tracestate.Some? then e.tracestate else Get(caller, "tracestate")
    ensures var read := EnvelopeFromProperties(merged, data);
            && (read.Some? <==> e.id != "" && e.eventType != "")
            && (read.Some? ==> (read.value == e.(data := data) <==> CallerLeavesAttributesAlone(caller, e)))
  {
  }

  lemma ContentTypeIsTheCallers<T>(caller: Properties, props: Properties, e: Envelope<T>)
    requires Carries(props, e)
    ensures Get(caller + props, "content-type") == Get(caller, "content-type")
  {
    forall name: Name
      ensures Key(name) != "content-type"
    {
      KeysDiffer(name, name);
    }
    assert "content-type" != "traceparent" && "content-type" != "tracestate";
  }

  /** The consumer sees a rebuilt envelope with every attribute the publisher's had. */
  predicate AttributesSurvive(sent: Envelope<Data>, received: Received) {
    received.Rebuilt? && received.envelope == sent.(data := received.envelope.data)
  }

  /**
   * Every attribute survives the broker exactly when the id and type are not
   * empty, the caller's own properties leave the unset attributes alone, and
   * the message does not pose as a structured one. Nothing is assumed of JSON.
   */
  lemma AttributesSurviveExactly(codec: Codec, message: Outgoing, caller: Properties, ambient: Ambient)
    requires SaysOver(message, caller) && Normal(message.envelope) && ambient.freshId != ""
    ensures AttributesSurvive(
              message.envelope, DecodeIncoming(codec, message.data, message.properties, ambient).envelope)
       <==> && message.envelope.id != "" && message.envelope.eventType != ""
            && CallerLeavesAttributesAlone(caller, message.envelope)
            && !PosesAsStructured(codec, message.data, caller)
  {
    var e := message.envelope;
    var props :| Carries(props, e) && message.properties == caller + props;
    MergedReads(caller, props, e, BodyOf(codec, message.data));
    MergedProperties(caller, props, e, SpecVersion);
    ContentTypeIsTheCallers(caller, props, e);
  }

  lemma OutgoingIsNormal(e: Envelope<Data>, payload: Payload, event: Event, ambient: Ambient)
    requires Says(e, payload, event, ambient)
    ensures Normal(e)
  {
  }

  /** A rebuilt envelope's data is the body, however its attributes were found. */
  lemma RebuiltCarriesBody(codec: Codec, data: Bytes, properties: Properties, ambient: Ambient)
    ensures var incoming := DecodeIncoming(codec, data, properties, ambient);
            incoming.envelope.Rebuilt? ==> incoming.data == data && incoming.envelope.envelope.data == BodyOf(codec, data)
  {
  }

  lemma PlainCallerLeavesAlone<T>(caller: Properties, e: Envelope<T>)
    requires "traceparent" !in caller && "tracestate" !in caller && forall name :: Key(name) !in caller
    ensures CallerLeavesAttributesAlone(caller, e)
  {
    assert Key(Subject) !in caller && Key(DataSchema) !in caller && Key(TenantId) !in caller;
  }

  /** A published JSON object arrives whole, data and all, under any caller properties that use no reserved name. */
  lemma PublishedObjectArrives(codec: Codec, message: Outgoing, json: Json, event: Event, caller: Properties,
                               ambient: Ambient, ambient': Ambient)
    requires json.Object? && codec.parse(codec.stringify(json)) == Some(json)
    requires message.data == codec.stringify(json) && SaysOver(message, caller)
    requires Says(message.envelope, Value(json), event, ambient)
    requires ambient.freshId != "" && ambient'.freshId != "" && event.id != Some("") && event.eventType != Some("")
    requires "content-type" !in caller && "traceparent" !in caller && "tracestate" !in caller
    requires forall name :: Key(name) !in caller
    ensures DecodeIncoming(codec, message.data, message.properties, ambient')
         == Incoming(message.data, Rebuilt(message.envelope))
  {
    PlainCallerLeavesAlone(caller, message.envelope);
    OutgoingIsNormal(message.envelope, Value(json), event, ambient);
    AttributesSurviveExactly(codec, message, caller, ambient');
    RebuiltCarriesBody(codec, message.data, message.properties, ambient');
  }

  /** So the consumer runs under the publisher's tenant and sees its id, type and subject. */
  lemma PublisherIsHeard(codec: Codec, message: Outgoing, payload: Payload, event: Event, caller: Properties,
                         ambient: Ambient, ambient': Ambient)
    requires message.data == (if payload.Buffer? then payload.bytes else codec.stringify(payload.json))
    requires SaysOver(message, caller) && Says(message.envelope, payload, event, ambient)
    requires ambient.freshId != "" && ambient'.freshId != "" && event.id != Some("") && event.eventType != Some("")
    requires CallerLeavesAttributesAlone(caller, message.envelope) && !PosesAsStructured(codec, message.data, caller)
    ensures var received := DecodeIncoming(codec, message.data, message.properties, ambient').envelope;
            && received.Rebuilt? && Says(received.envelope.(data := message.envelope.data), payload, event, ambient)
            && (event.tenantId.Some? && event.tenantId.value != "" ==> received.envelope.tenantid == event.tenantId)
            && (event.tenantId.None? ==> IsUnlessEmpty(received.envelope.tenantid, ambient.tenant))
            && (event.subject.Some? && event.subject.value != "" ==> received.envelope.subject == event.subject)
            && (event.id.Some? ==> received.envelope.id == event.id.value)
            && (event.eventType.Some? ==> received.envelope.eventType == event.eventType.value)
  {
    OutgoingIsNormal(message.envelope, payload, event, ambient);
    AttributesSurviveExactly(codec, message, caller, ambient');
  }

  /** A body is handed on as it was sent exactly if it is a structured envelope that is labelled so or carries no attributes. */
  lemma StructuredExactly(codec: Codec, data: Bytes, properties: Properties, ambient: Ambient)
    ensures var incoming, parsed := DecodeIncoming(codec, data, properties, ambient), codec.parse(data);
            && (incoming.envelope.AsSent? <==>
                  && (Get(properties, "content-type") == Some("application/cloudevents+json") || "ce_specversion" !in properties)
                  && parsed.Some? && parsed.value.Object?
                  && "data" in parsed.value.members && Member(parsed.value, "specversion") == Some(Text("1.0"))
                  && Member(parsed.value, "id").Some? && Member(parsed.value, "id").value.Text?
                  && Member(parsed.value, "type").Some? && Member(parsed.value, "type").value.Text?)
            && (incoming.envelope.AsSent? ==>
                  incoming.envelope.body == parsed.value && incoming.data == codec.stringify(parsed.value.members["data"]))
            && (incoming.envelope.Rebuilt? ==> incoming.data == data)
  {
    KeysSpeltOut();
  }

  function Member(body: Json, name: string): Option<Json> {
    if body.Object? && name in body.members then Some(body.members[name]) else None
  }

  /** A message without attributes of its own gets a fresh id, the clock and the default type, and keeps its trace. */
  lemma UnlabelledGetsDefaults(codec: Codec, data: Bytes, properties: Properties, ambient: Ambient)
    requires "ce_specversion" !in properties
    ensures var received := DecodeIncoming(codec, data, properties, ambient).envelope;
            received.Rebuilt? ==>
              var e := received.envelope;
              && e.id == ambient.freshId && e.time == ambient.now && e.eventType == "tropis.message.published"
              && e.source == "urn:tropis:unknown-source" && e.datacontenttype == "application/json" && e.schemaversion == "1"
              && e.tenantid == None && e.subject == None && e.dataschema == None
              && IsUnlessEmpty(e.traceparent, Get(properties, "traceparent"))
              && IsUnlessEmpty(e.tracestate, Get(properties, "tracestate"))
  {
    KeysSpeltOut();
  }

  /** The decoded body, or the raw one when it is not JSON or is null. */
  lemma BodyExactly(codec: Codec, data: Bytes)
    ensures codec.parse(data) == None || codec.parse(data) == Some(Null) ==> BodyOf(codec, data) == Raw(data)
    ensures codec.parse(data).Some? && codec.parse(data).value != Null ==> BodyOf(codec, data) == Decoded(codec.parse(data).value)
  {
  }
}
