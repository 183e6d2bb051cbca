/**
 The lifecycle attachment codec: records are sanitized, put in priority order and packed greedily under a
 byte cap and a record cap; a parsed attachment is sanitized again.
 */
module LifecycleContract {
  import opened Options
  import opened LifecycleSanitization

  const MAXIMUM_BYTES: int := 65_536
  const MAXIMUM_RECORDS: int := 100

  datatype Timestamp = Timestamp(utc: string, monotonicMilliseconds: Option<real>)

  datatype Event = Event(cdp: Option<Timestamp>, playwright: Option<Timestamp>)

  datatype FailureEvent = FailureEvent(
    cdp: Option<Timestamp>,
    playwright: Option<Timestamp>,
    errorText: Option<string>,
    canceled: Option<bool>,
    blockedReason: Option<string>,
    corsErrorStatus: Option<string>)

  datatype Endpoint = Endpoint(ipAddress: Option<string>, port: Option<real>)

  datatype Connection = Connection(id: Option<real>, reused: Option<bool>, remoteEndpoint: Option<Endpoint>)

  datatype EncodedBytes = EncodedBytes(data: Option<real>, responseHeaders: Option<real>, total: Option<real>)

  datatype Record = Record(
    verb: string,
    origin: string,
    pathTemplate: string,
    requestStarted: Event,
    responseReceived: Option<Event>,
    loadingFinished: Option<Event>,
    loadingFailed: Option<FailureEvent>,
    playwrightRequestKey: Option<string>,
    cdpRequestId: Option<string>,
    loaderId: Option<string>,
    apiGatewayRequestId: Option<string>,
    traceId: Option<string>,
    spanId: Option<string>,
    connection: Option<Connection>,
    encodedBytes: Option<EncodedBytes>,
    httpStatus: Option<real>,
    protocol: Option<string>,
    classification: Classification)

  // ----- Sanitizing a record

  function SanitizeTimestamp(platform: Platform, value: Option<Json>): Option<Timestamp> {
    match AsRecord(value)
    case None => None
    case Some(members) =>
      var utc := AsText(Get(members, UtcKey));
      if utc.None? || utc.value == "" then None
      else match platform.parseDate(utc.value)
        case None => None
        case Some(ms) => Some(Timestamp(platform.isoDate(ms), NonNegative(Get(members, MonotonicKey))))
  }

  function SanitizeEvent(platform: Platform, value: Option<Json>): Option<Event> {
    match AsRecord(value)
    case None => None
    case Some(members) =>
      var cdp := SanitizeTimestamp(platform, Get(members, CdpKey));
      var playwright := SanitizeTimestamp(platform, Get(members, PlaywrightKey));
      if cdp.Some? || playwright.Some? then Some(Event(cdp, playwright)) else None
  }

  function SanitizeFailureEvent(platform: Platform, value: Option<Json>): Option<FailureEvent> {
    match AsRecord(value)
    case None => None
    case Some(members) =>
      var event := match SanitizeEvent(platform, value) { case Some(e) => e case None => Event(None, None) };
      var failure := FailureEvent(
        event.cdp,
        event.playwright,
        NetworkError(Get(members, ErrorTextKey)),
        AsBool(Get(members, CanceledKey)),
        Identifier(Get(members, BlockedReasonKey)),
        Identifier(Get(members, CorsErrorStatusKey)));
      if failure == FailureEvent(None, None, None, None, None, None) then None else Some(failure)
  }

  function SanitizeEndpoint(value: Option<Json>): Option<Endpoint> {
    match AsRecord(value)
    case None => None
    case Some(members) =>
      var endpoint := Endpoint(IpAddress(Get(members, IpAddressKey)), NonNegative(Get(members, PortKey)));
      if endpoint == Endpoint(None, None) then None else Some(endpoint)
  }

  function SanitizeConnection(value: Option<Json>): Option<Connection> {
    match AsRecord(value)
    case None => None
    case Some(members) =>
      var connection := Connection(
        NonNegative(Get(members, IdKey)),
        AsBool(Get(members, ReusedKey)),
        SanitizeEndpoint(Get(members, RemoteEndpointKey)));
      if connection == Connection(None, None, None) then None else Some(connection)
  }

  function SanitizeEncodedBytes(value: Option<Json>): Option<EncodedBytes> {
    match AsRecord(value)
    case None => None
    case Some(members) =>
      var encodedBytes := EncodedBytes(
        NonNegative(Get(members, DataKey)),
        NonNegative(Get(members, ResponseHeadersKey)),
        NonNegative(Get(members, TotalKey)));
      if encodedBytes == EncodedBytes(None, None, None) then None else Some(encodedBytes)
  }

  function SanitizeRecord(platform: Platform, value: Json): Option<Record> {
    match AsRecord(Some(value))
    case None => None
    case Some(members) =>
      var verb := Method(platform, Get(members, MethodKey));
      var origin := Origin(platform, Get(members, OriginKey));
      var pathTemplate := PathTemplate(Get(members, PathTemplateKey));
      var classification := ClassificationOf(Get(members, ClassificationKey));
      var requestStarted := SanitizeEvent(platform, Get(members, RequestStartedKey));
      if verb.None? || origin.None? || origin.value == "" || pathTemplate.None? || classification.None?
         || requestStarted.None? then None
      else
        Some(Record(
               verb.value,
               origin.value,
               pathTemplate.value,
               requestStarted.value,
               SanitizeEvent(platform, Get(members, ResponseReceivedKey)),
               SanitizeEvent(platform, Get(members, LoadingFinishedKey)),
               SanitizeFailureEvent(platform, Get(members, LoadingFailedKey)),
               Identifier(Get(members, PlaywrightRequestKeyKey)),
               Identifier(Get(members, CdpRequestIdKey)),
               Identifier(Get(members, LoaderIdKey)),
               Identifier(Get(members, ApiGatewayRequestIdKey)),
               HexIdentifier(platform, Get(members, TraceIdKey), 32),
               HexIdentifier(platform, Get(members, SpanIdKey), 16),
               SanitizeConnection(Get(members, ConnectionKey)),
               SanitizeEncodedBytes(Get(members, EncodedBytesKey)),
               NonNegative(Get(members, HttpStatusKey)),
               Protocol(Get(members, ProtocolKey)),
               classification.value))
  }

  // ----- A record as a value

  function TimestampField(t: Timestamp, key: Key): Option<Json> {
    match key
    case UtcKey => Some(Text(t.utc))
    case MonotonicKey => OfNumber(t.monotonicMilliseconds)
    case _ => None
  }

  function TimestampJson(t: Option<Timestamp>): Option<Json> {
    if t.None? then None
    else Some(Object(map k: Key | TimestampField(t.value, k).Some? :: TimestampField(t.value, k).value))
  }

  function EventField(e: Event, key: Key): Option<Json> {
    match key
    case CdpKey => TimestampJson(e.cdp)
    case PlaywrightKey => TimestampJson(e.playwright)
    case _ => None
  }

  function EventJson(e: Option<Event>): Option<Json> {
    if e.None? then None
    else Some(Object(map k: Key | EventField(e.value, k).Some? :: EventField(e.value, k).value))
  }

  function FailureField(f: FailureEvent, key: Key): Option<Json> {
    match key
    case CdpKey => TimestampJson(f.cdp)
    case PlaywrightKey => TimestampJson(f.playwright)
    case ErrorTextKey => OfText(f.errorText)
    case CanceledKey => OfBool(f.canceled)
    case BlockedReasonKey => OfText(f.blockedReason)
    case CorsErrorStatusKey => OfText(f.corsErrorStatus)
    case _ => None
  }

  function FailureJson(f: Option<FailureEvent>): Option<Json> {
    if f.None? then None
    else Some(Object(map k: Key | FailureField(f.value, k).Some? :: FailureField(f.value, k).value))
  }

  function EndpointField(e: Endpoint, key: Key): Option<Json> {
    match key
    case IpAddressKey => OfText(e.ipAddress)
    case PortKey => OfNumber(e.port)
    case _ => None
  }

  function EndpointJson(e: Option<Endpoint>): Option<Json> {
    if e.None? then None
    else Some(Object(map k: Key | EndpointField(e.value, k).Some? :: EndpointField(e.value, k).value))
  }

  function ConnectionField(c: Connection, key: Key): Option<Json> {
    match key
    case IdKey => OfNumber(c.id)
    case ReusedKey => OfBool(c.reused)
    case RemoteEndpointKey => EndpointJson(c.remoteEndpoint)
    case _ => None
  }

  function ConnectionJson(c: Option<Connection>): Option<Json> {
    if c.None? then None
    else Some(Object(map k: Key | ConnectionField(c.value, k).Some? :: ConnectionField(c.value, k).value))
  }

  function EncodedBytesField(b: EncodedBytes, key: Key): Option<Json> {
    match key
    case DataKey => OfNumber(b.data)
    case ResponseHeadersKey => OfNumber(b.responseHeaders)
    case TotalKey => OfNumber(b.total)
    case _ => None
  }

  function EncodedBytesJson(b: Option<EncodedBytes>): Option<Json> {
    if b.None? then None
    else Some(Object(map k: Key | EncodedBytesField(b.value, k).Some? :: EncodedBytesField(b.value, k).value))
  }

  function RecordField(r: Record, key: Key): Option<Json> {
    match key
    case MethodKey => Some(Text(r.verb))
    case OriginKey => Some(Text(r.origin))
    case PathTemplateKey => Some(Text(r.pathTemplate))
    case ClassificationKey => Some(Text(ClassificationText(r.classification)))
    case RequestStartedKey => EventJson(Some(r.requestStarted))
    case ResponseReceivedKey => EventJson(r.responseReceived)
    case LoadingFinishedKey => EventJson(r.loadingFinished)
    case LoadingFailedKey => FailureJson(r.loadingFailed)
    case PlaywrightRequestKeyKey => OfText(r.playwrightRequestKey)
    case CdpRequestIdKey => OfText(r.cdpRequestId)
    case LoaderIdKey => OfText(r.loaderId)
    case ApiGatewayRequestIdKey => OfText(r.apiGatewayRequestId)
    case TraceIdKey => OfText(r.traceId)
    case SpanIdKey => OfText(r.spanId)
    case ConnectionKey => ConnectionJson(r.connection)
    case EncodedBytesKey => EncodedBytesJson(r.encodedBytes)
    case HttpStatusKey => OfNumber(r.httpStatus)
    case ProtocolKey => OfText(r.protocol)
    case _ => None
  }

  function RecordJson(r: Record): Json {
    Object(map k: Key | RecordField(r, k).Some? :: RecordField(r, k).value)
  }

  // ----- Sanitizing is idempotent

  lemma TimestampMembers(t: Timestamp)
    ensures
      var value := TimestampJson(Some(t));
      && value.Some? && value.value.Object?
      && Get(value.value.members, UtcKey) == Some(Text(t.utc))
      && Get(value.value.members, MonotonicKey) == OfNumber(t.monotonicMilliseconds)
  {
    assert TimestampField(t, UtcKey) == Some(Text(t.utc));
    assert TimestampField(t, MonotonicKey) == OfNumber(t.monotonicMilliseconds);
    hide TimestampField, OfNumber;
  }

  lemma EventMembers(e: Event)
    ensures
      var value := EventJson(Some(e));
      && value.Some? && value.value.Object?
      && Get(value.value.members, CdpKey) == TimestampJson(e.cdp)
      && Get(value.value.members, PlaywrightKey) == TimestampJson(e.playwright)
  {
    hide TimestampJson;
    assert EventField(e, CdpKey) == TimestampJson(e.cdp);
    assert EventField(e, PlaywrightKey) == TimestampJson(e.playwright);
    hide EventField;
  }

  lemma FailureMembers(f: FailureEvent)
    ensures
      var value := FailureJson(Some(f));
      && value.Some? && value.value.Object?
      && Get(value.value.members, CdpKey) == TimestampJson(f.cdp)
      && Get(value.value.members, PlaywrightKey) == TimestampJson(f.playwright)
      && Get(value.value.members, ErrorTextKey) == OfText(f.errorText)
      && Get(value.value.members, CanceledKey) == OfBool(f.canceled)
      && Get(value.value.members, BlockedReasonKey) == OfText(f.blockedReason)
      && Get(value.value.members, CorsErrorStatusKey) == OfText(f.corsErrorStatus)
  {
    hide TimestampJson, OfText, OfBool;
    assert FailureField(f, CdpKey) == TimestampJson(f.cdp);
    assert FailureField(f, PlaywrightKey) == TimestampJson(f.playwright);
    assert FailureField(f, ErrorTextKey) == OfText(f.errorText);
    assert FailureField(f, CanceledKey) == OfBool(f.canceled);
    assert FailureField(f, BlockedReasonKey) == OfText(f.blockedReason);
    assert FailureField(f, CorsErrorStatusKey) == OfText(f.corsErrorStatus);
    hide FailureField;
  }

  lemma EndpointMembers(e: Endpoint)
    ensures
      var value := EndpointJson(Some(e));
      && value.Some? && value.value.Object?
      && Get(value.value.members, IpAddressKey) == OfText(e.ipAddress)
      && Get(value.value.members, PortKey) == OfNumber(e.port)
  {
    hide OfText, OfNumber;
    assert EndpointField(e, IpAddressKey) == OfText(e.ipAddress);
    assert EndpointField(e, PortKey) == OfNumber(e.port);
    hide EndpointField;
  }

  lemma ConnectionMembers(c: Connection)
    ensures
      var value := ConnectionJson(Some(c));
      && value.Some? && value.value.Object?
      && Get(value.value.members, IdKey) == OfNumber(c.id)
      && Get(value.value.members, ReusedKey) == OfBool(c.reused)
      && Get(value.value.members, RemoteEndpointKey) == EndpointJson(c.remoteEndpoint)
  {
    hide OfNumber, OfBool, EndpointJson;
    assert ConnectionField(c, IdKey) == OfNumber(c.id);
    assert ConnectionField(c, ReusedKey) == OfBool(c.reused);
    assert ConnectionField(c, RemoteEndpointKey) == EndpointJson(c.remoteEndpoint);
    hide ConnectionField;
  }

  lemma EncodedBytesMembers(b: EncodedBytes)
    ensures
      var value := EncodedBytesJson(Some(b));
      && value.Some? && value.value.Object?
      && Get(value.value.members, DataKey) == OfNumber(b.data)
      && Get(value.value.members, ResponseHeadersKey) == OfNumber(b.responseHeaders)
      && Get(value.value.members, TotalKey) == OfNumber(b.total)
  {
    hide OfNumber;
    assert EncodedBytesField(b, DataKey) == OfNumber(b.data);
    assert EncodedBytesField(b, ResponseHeadersKey) == OfNumber(b.responseHeaders);
    assert EncodedBytesField(b, TotalKey) == OfNumber(b.total);
    hide EncodedBytesField;
  }

  lemma NothingIsKept()
    ensures TimestampJson(None) == EventJson(None) == FailureJson(None) == EndpointJson(None) == None
    ensures ConnectionJson(None) == EncodedBytesJson(None) == None
  {
  }

  // ----- What a sanitized record can be

  /** The ISO form of a date that could be parsed. */
  ghost predicate IsUtc(platform: Platform, utc: string) {
    exists text {:trigger platform.parseDate(text)} ::
      text != "" && platform.parseDate(text).Some? && utc == platform.isoDate(platform.parseDate(text).value)
  }

  ghost predicate SafeTimestamp(platform: Platform, t: Option<Timestamp>) {
    t.Some? ==> IsUtc(platform, t.value.utc) && SafeNumber(t.value.monotonicMilliseconds)
  }

  ghost predicate SafeEvent(platform: Platform, e: Option<Event>) {
    e.Some? ==>
      && (e.value.cdp.Some? || e.value.playwright.Some?)
      && SafeTimestamp(platform, e.value.cdp) && SafeTimestamp(platform, e.value.playwright)
  }

  ghost predicate SafeFailure(platform: Platform, f: Option<FailureEvent>) {
    f.Some? ==>
      && SafeTimestamp(platform, f.value.cdp) && SafeTimestamp(platform, f.value.playwright)
      && (f.value.errorText.Some? ==> IsNetworkError(f.value.errorText.value))
      && SafeText(f.value.blockedReason, IsIdentifierChar) && SafeText(f.value.corsErrorStatus, IsIdentifierChar)
      && f.value != FailureEvent(None, None, None, None, None, None)
  }

  predicate SafeEndpoint(e: Option<Endpoint>) {
    e.Some? ==>
      SafeText(e.value.ipAddress, IsAddressChar) && SafeNumber(e.value.port) && e.value != Endpoint(None, None)
  }

  predicate SafeConnection(c: Option<Connection>) {
    c.Some? ==>
      SafeNumber(c.value.id) && SafeEndpoint(c.value.remoteEndpoint) && c.value != Connection(None, None, None)
  }

  predicate SafeBytes(b: Option<EncodedBytes>) {
    b.Some? ==>
      && SafeNumber(b.value.data) && SafeNumber(b.value.responseHeaders) && SafeNumber(b.value.total)
      && b.value != EncodedBytes(None, None, None)
  }

  /**
   Every field in its safe form. Two are open: a path may hold any character but a question mark or a hash,
   and an error text may be of any length.
   */
  ghost predicate SafeRecord(platform: Platform, r: Record) {
    && SafeVerb(r.verb)
    && SafeOrigin(platform, r.origin)
    && SafePath(r.pathTemplate)
    && SafeEvent(platform, Some(r.requestStarted))
    && SafeEvent(platform, r.responseReceived) && SafeEvent(platform, r.loadingFinished)
    && SafeFailure(platform, r.loadingFailed)
    && SafeText(r.playwrightRequestKey, IsIdentifierChar) && SafeText(r.cdpRequestId, IsIdentifierChar)
    && SafeText(r.loaderId, IsIdentifierChar) && SafeText(r.apiGatewayRequestId, IsIdentifierChar)
    && SafeHex(r.traceId, 32) && SafeHex(r.spanId, 16)
    && SafeConnection(r.connection)
    && SafeBytes(r.encodedBytes)
    && SafeNumber(r.httpStatus)
    && SafeText(r.protocol, IsProtocolChar)
  }

  lemma TimestampIsSafe(platform: Platform, value: Option<Json>)
    ensures SafeTimestamp(platform, SanitizeTimestamp(platform, value))
  {
    hide NonNegative, SafeNumber;
    if SanitizeTimestamp(platform, value).Some? {
      NumberIsSafe(Get(AsRecord(value).value, MonotonicKey));
    }
  }

  lemma TimestampReads(platform: Platform, t: Option<Timestamp>)
    requires Lawful(platform) && SafeTimestamp(platform, t)
    ensures SanitizeTimestamp(platform, TimestampJson(t)) == t
  {
    NothingIsKept();
    hide TimestampJson, Get, NonNegative, SafeNumber, OfNumber;
    if t.Some? {
      TimestampMembers(t.value);
      NumberReads(t.value.monotonicMilliseconds);
    }
  }

  lemma EventIsSafe(platform: Platform, value: Option<Json>)
    ensures SafeEvent(platform, SanitizeEvent(platform, value))
  {
    hide SanitizeTimestamp, SafeTimestamp, Get;
    if SanitizeEvent(platform, value).Some? {
      TimestampIsSafe(platform, Get(AsRecord(value).value, CdpKey));
      TimestampIsSafe(platform, Get(AsRecord(value).value, PlaywrightKey));
    }
  }

  lemma EventReads(platform: Platform, e: Option<Event>)
    requires Lawful(platform) && SafeEvent(platform, e)
    ensures SanitizeEvent(platform, EventJson(e)) == e
  {
    NothingIsKept();
    hide Lawful, SanitizeTimestamp, SafeTimestamp, TimestampJson, EventJson, Get;
    if e.Some? {
      TimestampReads(platform, e.value.cdp);
      TimestampReads(platform, e.value.playwright);
      EventMembers(e.value);
    }
  }

  lemma FailureIsSafe(platform: Platform, value: Option<Json>)
    ensures SafeFailure(platform, SanitizeFailureEvent(platform, value))
  {
    hide SanitizeTimestamp, SafeTimestamp, Get, Safe, SafeText, StripAnsi, IsNetworkError;
    if SanitizeFailureEvent(platform, value).Some? {
      var source := AsRecord(value).value;
      TimestampIsSafe(platform, Get(source, CdpKey));
      TimestampIsSafe(platform, Get(source, PlaywrightKey));
      TextIsSafe(Get(source, BlockedReasonKey), IsIdentifierChar);
      TextIsSafe(Get(source, CorsErrorStatusKey), IsIdentifierChar);
      NothingTimed(platform);
    }
  }

  lemma NothingTimed(platform: Platform)
    ensures SafeTimestamp(platform, None)
  {
  }

  lemma FailureReads(platform: Platform, f: Option<FailureEvent>)
    requires Lawful(platform) && SafeFailure(platform, f)
    ensures SanitizeFailureEvent(platform, FailureJson(f)) == f
  {
    NothingIsKept();
    hide Lawful, SanitizeTimestamp, SafeTimestamp, TimestampJson, FailureJson, Get, NetworkError, IsNetworkError, Safe,
      SafeText;
    if f.Some? {
      TimestampReads(platform, f.value.cdp);
      TimestampReads(platform, f.value.playwright);
      if f.value.errorText.Some? {
        NetworkErrorReads(f.value.errorText.value);
      }
      NoErrorReads();
      TextReads(f.value.blockedReason, IsIdentifierChar);
      TextReads(f.value.corsErrorStatus, IsIdentifierChar);
      FailureMembers(f.value);
    }
  }

  lemma NoErrorReads()
    ensures NetworkError(None) == None
  {
  }

  /** A sanitized failure event is kept as it is. */
  lemma FailureEventIsKept(platform: Platform, value: Option<Json>)
    requires Lawful(platform)
    ensures
      var f := SanitizeFailureEvent(platform, value);
      SanitizeFailureEvent(platform, FailureJson(f)) == f
  {
    hide Lawful, SafeFailure, SanitizeFailureEvent, FailureJson;
    FailureIsSafe(platform, value);
    FailureReads(platform, SanitizeFailureEvent(platform, value));
  }

  lemma EndpointIsSafe(value: Option<Json>)
    ensures SafeEndpoint(SanitizeEndpoint(value))
  {
    hide Get, Safe, SafeText;
    if SanitizeEndpoint(value).Some? {
      TextIsSafe(Get(AsRecord(value).value, IpAddressKey), IsAddressChar);
    }
  }

  lemma EndpointReads(e: Option<Endpoint>)
    requires SafeEndpoint(e)
    ensures SanitizeEndpoint(EndpointJson(e)) == e
  {
    NothingIsKept();
    hide EndpointJson, Get, Safe, SafeText, NonNegative, SafeNumber, OfText, OfNumber;
    if e.Some? {
      TextReads(e.value.ipAddress, IsAddressChar);
      NumberReads(e.value.port);
      EndpointMembers(e.value);
    }
  }

  lemma ConnectionIsSafe(value: Option<Json>)
    ensures SafeConnection(SanitizeConnection(value))
  {
    hide Get, SanitizeEndpoint, SafeEndpoint;
    if SanitizeConnection(value).Some? {
      EndpointIsSafe(Get(AsRecord(value).value, RemoteEndpointKey));
    }
  }

  lemma ConnectionReads(c: Option<Connection>)
    requires SafeConnection(c)
    ensures SanitizeConnection(ConnectionJson(c)) == c
  {
    NothingIsKept();
    hide ConnectionJson, SanitizeEndpoint, SafeEndpoint, EndpointJson, Get, NonNegative, SafeNumber, OfNumber;
    if c.Some? {
      NumberReads(c.value.id);
      EndpointReads(c.value.remoteEndpoint);
      ConnectionMembers(c.value);
    }
  }

  /** A sanitized connection is kept as it is. */
  lemma ConnectionIsKept(value: Option<Json>)
    ensures
      var c := SanitizeConnection(value);
      SanitizeConnection(ConnectionJson(c)) == c
  {
    hide SafeConnection, SanitizeConnection, ConnectionJson;
    ConnectionIsSafe(value);
    ConnectionReads(SanitizeConnection(value));
  }

  lemma BytesAreSafe(value: Option<Json>)
    ensures SafeBytes(SanitizeEncodedBytes(value))
  {
    hide Get;
  }

  lemma BytesRead(b: Option<EncodedBytes>)
    requires SafeBytes(b)
    ensures SanitizeEncodedBytes(EncodedBytesJson(b)) == b
  {
    NothingIsKept();
    hide EncodedBytesJson, Get, NonNegative, SafeNumber, OfNumber;
    if b.Some? {
      NumberReads(b.value.data);
      NumberReads(b.value.responseHeaders);
      NumberReads(b.value.total);
      EncodedBytesMembers(b.value);
    }
  }

  lemma RecordMember(r: Record, key: Key)
    ensures RecordJson(r).Object? && Get(RecordJson(r).members, key) == RecordField(r, key)
  {
    hide RecordField;
  }

  lemma RequiredMembers(r: Record)
    ensures RecordJson(r).Object?
    ensures Get(RecordJson(r).members, MethodKey) == Some(Text(r.verb))
    ensures Get(RecordJson(r).members, OriginKey) == Some(Text(r.origin))
    ensures Get(RecordJson(r).members, PathTemplateKey) == Some(Text(r.pathTemplate))
    ensures Get(RecordJson(r).members, ClassificationKey) == Some(Text(ClassificationText(r.classification)))
    ensures Get(RecordJson(r).members, RequestStartedKey) == EventJson(Some(r.requestStarted))
  {
    hide RecordJson, Get, OfText, OfNumber, EventJson, FailureJson, ConnectionJson, EncodedBytesJson;
    RecordMember(r, MethodKey);
    RecordMember(r, OriginKey);
    RecordMember(r, PathTemplateKey);
    RecordMember(r, ClassificationKey);
    RecordMember(r, RequestStartedKey);
  }

  lemma MomentMembers(r: Record)
    ensures RecordJson(r).Object?
    ensures Get(RecordJson(r).members, ResponseReceivedKey) == EventJson(r.responseReceived)
    ensures Get(RecordJson(r).members, LoadingFinishedKey) == EventJson(r.loadingFinished)
    ensures Get(RecordJson(r).members, LoadingFailedKey) == FailureJson(r.loadingFailed)
  {
    hide RecordJson, Get, OfText, OfNumber, EventJson, FailureJson, ConnectionJson, EncodedBytesJson;
    RecordMember(r, ResponseReceivedKey);
    RecordMember(r, LoadingFinishedKey);
    RecordMember(r, LoadingFailedKey);
  }

  lemma IdentifierMembers(r: Record)
    ensures RecordJson(r).Object?
    ensures Get(RecordJson(r).members, PlaywrightRequestKeyKey) == OfText(r.playwrightRequestKey)
    ensures Get(RecordJson(r).members, CdpRequestIdKey) == OfText(r.cdpRequestId)
    ensures Get(RecordJson(r).members, LoaderIdKey) == OfText(r.loaderId)
    ensures Get(RecordJson(r).members, ApiGatewayRequestIdKey) == OfText(r.apiGatewayRequestId)
    ensures Get(RecordJson(r).members, TraceIdKey) == OfText(r.traceId)
    ensures Get(RecordJson(r).members, SpanIdKey) == OfText(r.spanId)
  {
    hide RecordJson, Get, OfText, OfNumber, EventJson, FailureJson, ConnectionJson, EncodedBytesJson;
    RecordMember(r, PlaywrightRequestKeyKey);
    RecordMember(r, CdpRequestIdKey);
    RecordMember(r, LoaderIdKey);
    RecordMember(r, ApiGatewayRequestIdKey);
    RecordMember(r, TraceIdKey);
    RecordMember(r, SpanIdKey);
  }

  lemma OtherMembers(r: Record)
    ensures RecordJson(r).Object?
    ensures Get(RecordJson(r).members, ConnectionKey) == ConnectionJson(r.connection)
    ensures Get(RecordJson(r).members, EncodedBytesKey) == EncodedBytesJson(r.encodedBytes)
    ensures Get(RecordJson(r).members, HttpStatusKey) == OfNumber(r.httpStatus)
    ensures Get(RecordJson(r).members, ProtocolKey) == OfText(r.protocol)
  {
    hide RecordJson, Get, OfText, OfNumber, EventJson, FailureJson, ConnectionJson, EncodedBytesJson;
    RecordMember(r, ConnectionKey);
    RecordMember(r, EncodedBytesKey);
    RecordMember(r, HttpStatusKey);
    RecordMember(r, ProtocolKey);
  }

  lemma OptionalPartReads(platform: Platform, r: Record)
    requires Lawful(platform) && SafeRecord(platform, r)
    ensures
      var members := RecordJson(r).members;
      && SanitizeEvent(platform, Get(members, ResponseReceivedKey)) == r.responseReceived
      && SanitizeEvent(platform, Get(members, LoadingFinishedKey)) == r.loadingFinished
      && SanitizeFailureEvent(platform, Get(members, LoadingFailedKey)) == r.loadingFailed
      && Identifier(Get(members, PlaywrightRequestKeyKey)) == r.playwrightRequestKey
      && Identifier(Get(members, CdpRequestIdKey)) == r.cdpRequestId
      && Identifier(Get(members, LoaderIdKey)) == r.loaderId
      && Identifier(Get(members, ApiGatewayRequestIdKey)) == r.apiGatewayRequestId
      && HexIdentifier(platform, Get(members, TraceIdKey), 32) == r.traceId
      && HexIdentifier(platform, Get(members, SpanIdKey), 16) == r.spanId
      && SanitizeConnection(Get(members, ConnectionKey)) == r.connection
      && SanitizeEncodedBytes(Get(members, EncodedBytesKey)) == r.encodedBytes
      && NonNegative(Get(members, HttpStatusKey)) == r.httpStatus
      && Protocol(Get(members, ProtocolKey)) == r.protocol
  {
    hide RecordJson, SanitizeEvent, EventJson, SafeEvent, SanitizeFailureEvent, FailureJson, SafeFailure,
      SanitizeConnection, ConnectionJson, SafeConnection, SanitizeEncodedBytes, EncodedBytesJson, SafeBytes, Safe,
      SafeText, HexIdentifier, SafeHex, NonNegative, SafeNumber, SafeOrigin, Lawful, Get, OfText, OfNumber;
    EventReads(platform, r.responseReceived);
    EventReads(platform, r.loadingFinished);
    FailureReads(platform, r.loadingFailed);
    TextReads(r.playwrightRequestKey, IsIdentifierChar);
    TextReads(r.cdpRequestId, IsIdentifierChar);
    TextReads(r.loaderId, IsIdentifierChar);
    TextReads(r.apiGatewayRequestId, IsIdentifierChar);
    HexReads(platform, r.traceId, 32);
    HexReads(platform, r.spanId, 16);
    ConnectionReads(r.connection);
    BytesRead(r.encodedBytes);
    NumberReads(r.httpStatus);
    TextReads(r.protocol, IsProtocolChar);
    MomentMembers(r);
    IdentifierMembers(r);
    OtherMembers(r);
  }

  lemma RequiredPartReads(platform: Platform, r: Record)
    requires Lawful(platform) && SafeRecord(platform, r)
    ensures
      var members := RecordJson(r).members;
      && Method(platform, Get(members, MethodKey)) == Some(r.verb)
      && Origin(platform, Get(members, OriginKey)) == (if |r.origin| <= IDENTIFIER_CAP then Some(r.origin) else None)
      && PathTemplate(Get(members, PathTemplateKey)) == Some(r.pathTemplate)
      && ClassificationOf(Get(members, ClassificationKey)) == Some(r.classification)
      && SanitizeEvent(platform, Get(members, RequestStartedKey)) == Some(r.requestStarted)
  {
    hide RecordJson, SanitizeEvent, EventJson, SafeEvent, SafeFailure, SafeConnection, SafeBytes, SafeText, SafeHex,
      SafeNumber, SafeVerb, SafePath, SafeOrigin, Method, Origin, PathTemplate, ClassificationOf, Lawful, Get;
    VerbReads(platform, r.verb);
    OriginReads(platform, r.origin);
    PathReads(r.pathTemplate);
    ClassificationIsKept(r.classification);
    EventReads(platform, Some(r.requestStarted));
    RequiredMembers(r);
  }

  /** A safe record is kept as it is, exactly when its origin is within the cap; otherwise it is refused. */
  lemma SafeRecordReads(platform: Platform, r: Record)
    requires Lawful(platform) && SafeRecord(platform, r)
    ensures SanitizeRecord(platform, RecordJson(r)) == if |r.origin| <= IDENTIFIER_CAP then Some(r) else None
  {
    hide RecordJson, SanitizeEvent, SanitizeFailureEvent, SanitizeConnection, SanitizeEncodedBytes, Method, Origin,
      PathTemplate, ClassificationOf, Safe, HexIdentifier, NonNegative, Lawful, SafeRecord, Get, EventJson, OfText;
    OriginIsThere(platform, r);
    RequiredPartReads(platform, r);
    OptionalPartReads(platform, r);
    RequiredMembers(r);
  }

  lemma OriginIsThere(platform: Platform, r: Record)
    requires SafeRecord(platform, r)
    ensures r.origin != ""
  {
  }

  lemma SanitizedIsSafe(platform: Platform, value: Json, r: Record)
    requires SanitizeRecord(platform, value) == Some(r)
    ensures SafeRecord(platform, r)
  {
    hide SanitizeEvent, SafeEvent, SanitizeFailureEvent, SafeFailure, SanitizeConnection, SafeConnection,
      SanitizeEncodedBytes, SafeBytes, Method, SafeVerb, Origin, SafeOrigin, PathTemplate, SafePath, ClassificationOf,
      Safe, SafeText, HexIdentifier, SafeHex, NonNegative, SafeNumber, Get;
    var members := AsRecord(Some(value)).value;
    VerbIsSafe(platform, Get(members, MethodKey));
    OriginIsSafe(platform, Get(members, OriginKey));
    PathIsSafe(Get(members, PathTemplateKey));
    EventIsSafe(platform, Get(members, RequestStartedKey));
    EventIsSafe(platform, Get(members, ResponseReceivedKey));
    EventIsSafe(platform, Get(members, LoadingFinishedKey));
    FailureIsSafe(platform, Get(members, LoadingFailedKey));
    TextIsSafe(Get(members, PlaywrightRequestKeyKey), IsIdentifierChar);
    TextIsSafe(Get(members, CdpRequestIdKey), IsIdentifierChar);
    TextIsSafe(Get(members, LoaderIdKey), IsIdentifierChar);
    TextIsSafe(Get(members, ApiGatewayRequestIdKey), IsIdentifierChar);
    HexIsSafe(platform, Get(members, TraceIdKey), 32);
    HexIsSafe(platform, Get(members, SpanIdKey), 16);
    ConnectionIsSafe(Get(members, ConnectionKey));
    BytesAreSafe(Get(members, EncodedBytesKey));
    NumberIsSafe(Get(members, HttpStatusKey));
    TextIsSafe(Get(members, ProtocolKey), IsProtocolChar);
  }

  /** A sanitized record is kept as it is, exactly when its origin is within the cap; otherwise it is refused. */
  lemma RecordIsKept(platform: Platform, value: Json, r: Record)
    requires Lawful(platform) && SanitizeRecord(platform, value) == Some(r)
    ensures SanitizeRecord(platform, RecordJson(r)) == if |r.origin| <= IDENTIFIER_CAP then Some(r) else None
  {
    hide Lawful, SanitizeRecord, SafeRecord, RecordJson;
    SanitizedIsSafe(platform, value, r);
    SafeRecordReads(platform, r);
  }

  ghost predicate IsSanitized(platform: Platform, r: Record) {
    exists value :: SanitizeRecord(platform, value) == Some(r)
  }

  /** The record as a value, with another text in the place of its origin. */
  function WithOrigin(r: Record, text: string): Json {
    Object(RecordJson(r).members[OriginKey := Text(text)])
  }

  lemma WithOriginReads(platform: Platform, r: Record, text: string)
    requires Lawful(platform) && SafeRecord(platform, r)
    requires Origin(platform, Some(Text(text))) == Some(r.origin)
    ensures SanitizeRecord(platform, WithOrigin(r, text)) == Some(r)
  {
    hide WithOrigin, RecordJson, SanitizeEvent, SanitizeFailureEvent, SanitizeConnection, SanitizeEncodedBytes, Method, Origin,
      PathTemplate, ClassificationOf, Safe, HexIdentifier, NonNegative, Lawful, SafeRecord, Get, EventJson, OfText;
    OriginIsThere(platform, r);
    RequiredPartReads(platform, r);
    OptionalPartReads(platform, r);
    OthersAreKept(r, text);
  }

  lemma OthersAreKept(r: Record, text: string)
    ensures WithOrigin(r, text).Object? && Get(WithOrigin(r, text).members, OriginKey) == Some(Text(text))
    ensures forall k {:trigger Get(WithOrigin(r, text).members, k)} :: k != OriginKey ==>
      Get(WithOrigin(r, text).members, k) == Get(RecordJson(r).members, k)
  {
    hide RecordJson;
  }

  /** The safe records are exactly those that sanitizing gives. */
  lemma SafeIsSanitized(platform: Platform, r: Record)
    requires Lawful(platform)
    ensures SafeRecord(platform, r) <==> IsSanitized(platform, r)
  {
    hide SafeRecord, Lawful, SanitizeRecord, WithOrigin;
    if SafeRecord(platform, r) {
      OriginHasText(platform, r);
      var text :| Origin(platform, Some(Text(text))) == Some(r.origin);
      WithOriginReads(platform, r, text);
    }
    if value :| SanitizeRecord(platform, value) == Some(r) {
      SanitizedIsSafe(platform, value, r);
    }
  }

  lemma OriginHasText(platform: Platform, r: Record)
    requires SafeRecord(platform, r)
    ensures exists text :: Origin(platform, Some(Text(text))) == Some(r.origin)
  {
    var text :|
      && 0 < |text| <= IDENTIFIER_CAP
      && platform.url(text).Some? && IsWeb(platform.url(text).value) && platform.url(text).value.origin == r.origin;
    assert Origin(platform, Some(Text(text))) == Some(r.origin);
  }

  // ----- The attachment

  datatype Attachment = Attachment(truncated: bool, records: seq<Record>)

  /** JSON text as UTF-8, one char a byte: what it is for one record, and what it parses to. */
  datatype Printer = Printer(recordText: Record -> string, parse: string -> Option<Json>)

  function Joined(printer: Printer, records: seq<Record>): string {
    if records == [] then ""
    else
      var earlier := records[..|records| - 1];
      Joined(printer, earlier) + (if earlier == [] then "" else ",") + printer.recordText(records[|records| - 1])
  }

  /** The text of an attachment, in the order its members are written. */
  function AttachmentText(printer: Printer, a: Attachment): string {
    "{\"schemaVersion\":2,\"truncated\":" + (if a.truncated then "true" else "false")
    + ",\"records\":[" + Joined(printer, a.records) + "]}"
  }

  function AttachmentJson(a: Attachment): Json {
    Object(map[
             SchemaVersionKey := Number(2.0),
             TruncatedKey := Bool(a.truncated),
             RecordsKey := Array(RecordsJson(a.records))])
  }

  function RecordsJson(records: seq<Record>): seq<Json> {
    seq(|records|, i requires 0 <= i < |records| => RecordJson(records[i]))
  }

  /** The records that can be sanitized, in order. */
  function Sanitized(platform: Platform, values: seq<Json>): (records: seq<Record>)
    ensures |records| <= |values|
  {
    if values == [] then []
    else
      var earlier := Sanitized(platform, values[..|values| - 1]);
      match SanitizeRecord(platform, values[|values| - 1])
      case Some(r) => earlier + [r]
      case None => earlier
  }

  // ----- Priority

  function Rank(c: Classification): nat {
    match c
    case NoResponseHeaders => 0
    case HeadersWithoutBodyCompletion => 1
    case NetworkFailure => 2
    case Completed => 3
  }

  /** The records of one classification, in order. */
  function Of(records: seq<Record>, c: Classification): (r: seq<Record>)
    ensures |r| <= |records| && forall i :: 0 <= i < |r| ==> r[i].classification == c
  {
    if records == [] then []
    else
      var last := records[|records| - 1];
      Of(records[..|records| - 1], c) + if last.classification == c then [last] else []
  }

  function Prioritized(records: seq<Record>): seq<Record> {
    Of(records, NoResponseHeaders) + Of(records, HeadersWithoutBodyCompletion) + Of(records, NetworkFailure)
    + Of(records, Completed)
  }

  predicate InOrder(records: seq<Record>) {
    forall i, j {:trigger records[i], records[j]} :: 0 <= i < j < |records| ==>
      Rank(records[i].classification) <= Rank(records[j].classification)
  }

  lemma {:induction false} OfConcat(a: seq<Record>, b: seq<Record>, c: Classification)
    ensures Of(a + b, c) == Of(a, c) + Of(b, c)
  {
    if b == [] {
      assert a + b == a;
    } else {
      OfConcat(a, b[..|b| - 1], c);
      assert (a + b)[..|a + b| - 1] == a + b[..|b| - 1];
    }
  }

  lemma {:induction false} OfOneClass(records: seq<Record>, c: Classification, d: Classification)
    requires forall i :: 0 <= i < |records| ==> records[i].classification == c
    ensures Of(records, d) == if c == d then records else []
  {
    if records != [] {
      OfOneClass(records[..|records| - 1], c, d);
    }
  }

  /** Priority order is a stable sort: in order, and within each classification as before. */
  lemma PriorityIsStable(records: seq<Record>, c: Classification)
    ensures InOrder(Prioritized(records)) && |Prioritized(records)| == |records|
    ensures Of(Prioritized(records), c) == Of(records, c)
  {
    hide Of;
    var first, second := Of(records, NoResponseHeaders), Of(records, HeadersWithoutBodyCompletion);
    var third, fourth := Of(records, NetworkFailure), Of(records, Completed);
    OfConcat(first + second + third, fourth, c);
    OfConcat(first + second, third, c);
    OfConcat(first, second, c);
    OfOneClass(first, NoResponseHeaders, c);
    OfOneClass(second, HeadersWithoutBodyCompletion, c);
    OfOneClass(third, NetworkFailure, c);
    OfOneClass(fourth, Completed, c);
    ClassesCover(records);
    ConcatInOrder(first, second);
    ConcatInOrder(first + second, third);
    ConcatInOrder(first + second + third, fourth);
  }

  lemma ConcatInOrder(a: seq<Record>, b: seq<Record>)
    requires InOrder(a) && InOrder(b)
    requires forall i, j {:trigger a[i], b[j]} :: 0 <= i < |a| && 0 <= j < |b| ==>
      Rank(a[i].classification) <= Rank(b[j].classification)
    ensures InOrder(a + b)
  {
  }

  lemma {:induction false} ClassesCover(records: seq<Record>)
    ensures |Prioritized(records)| == |records|
  {
    if records != [] {
      ClassesCover(records[..|records| - 1]);
    }
  }

  // ----- Packing

  function Separator(included: seq<Record>): nat {
    if included == [] then 0 else 1
  }

  /** The bytes of an attachment without records, whichever flag is longer. */
  const EMPTY_BYTES: int := 50

  lemma TextLength(printer: Printer, a: Attachment)
    ensures |AttachmentText(printer, a)| == |Joined(printer, a.records)| + EMPTY_BYTES - if a.truncated then 1 else 0
  {
  }

  lemma JoinedOneMore(printer: Printer, included: seq<Record>, r: Record)
    ensures |Joined(printer, included + [r])| ==
      |Joined(printer, included)| + Separator(included) + |printer.recordText(r)|
  {
    assert (included + [r])[..|included|] == included;
  }

  /** The size the packing counts for one more record. */
  function Counted(printer: Printer, included: seq<Record>, r: Record): nat {
    EMPTY_BYTES + |Joined(printer, included)| + Separator(included) + |printer.recordText(r)|
  }

  predicate Admits(printer: Printer, included: seq<Record>, r: Record) {
    |included| < MAXIMUM_RECORDS && Counted(printer, included, r) <= MAXIMUM_BYTES
  }

  function Packed(printer: Printer, records: seq<Record>): (included: seq<Record>)
    ensures |included| <= MAXIMUM_RECORDS && |included| <= |records|
  {
    if records == [] then []
    else
      var earlier := Packed(printer, records[..|records| - 1]);
      var last := records[|records| - 1];
      if Admits(printer, earlier, last) then earlier + [last] else earlier
  }

  lemma {:induction false} PackedFits(printer: Printer, records: seq<Record>)
    ensures |Joined(printer, Packed(printer, records))| + EMPTY_BYTES <= MAXIMUM_BYTES
  {
    if records != [] {
      var earlier := records[..|records| - 1];
      PackedFits(printer, earlier);
      JoinedOneMore(printer, Packed(printer, earlier), records[|records| - 1]);
    }
  }

  /** Packing goes on from what it has. */
  lemma {:induction false} PackedGrows(printer: Printer, records: seq<Record>, k: nat)
    requires k <= |records|
    ensures Packed(printer, records[..k]) <= Packed(printer, records)
    ensures |Joined(printer, Packed(printer, records[..k]))| <= |Joined(printer, Packed(printer, records))|
    ensures |Packed(printer, records[..k])| >= MAXIMUM_RECORDS ==> Packed(printer, records[..k]) == Packed(printer, records)
  {
    if k == |records| {
      assert records[..k] == records;
    } else {
      var earlier := records[..|records| - 1];
      PackedGrows(printer, earlier, k);
      assert earlier[..k] == records[..k];
      JoinedOneMore(printer, Packed(printer, earlier), records[|records| - 1]);
    }
  }

  /** Where the included records stood. */
  function Picks(printer: Printer, records: seq<Record>): seq<nat> {
    if records == [] then []
    else
      var earlier := records[..|records| - 1];
      Picks(printer, earlier)
      + if Admits(printer, Packed(printer, earlier), records[|records| - 1]) then [|records| - 1] else []
  }

  /** The included records are some of the records, in their order. */
  lemma {:induction false} PicksArePacked(printer: Printer, records: seq<Record>)
    ensures |Picks(printer, records)| == |Packed(printer, records)|
    ensures forall i {:trigger Picks(printer, records)[i]} :: 0 <= i < |Picks(printer, records)| ==>
      && Picks(printer, records)[i] < |records|
      && Packed(printer, records)[i] == records[Picks(printer, records)[i]]
    ensures forall i, j {:trigger Picks(printer, records)[i], Picks(printer, records)[j]} ::
      0 <= i < j < |Picks(printer, records)| ==> Picks(printer, records)[i] < Picks(printer, records)[j]
  {
    if records != [] {
      PicksArePacked(printer, records[..|records| - 1]);
    }
  }

  lemma {:induction false} AdmittedIsPicked(printer: Printer, records: seq<Record>, i: nat)
    requires i < |records| && Admits(printer, Packed(printer, records[..i]), records[i])
    ensures i in Picks(printer, records)
  {
    hide Admits;
    if i < |records| - 1 {
      var earlier := records[..|records| - 1];
      assert earlier[..i] == records[..i];
      AdmittedIsPicked(printer, earlier, i);
    }
  }

  lemma PackedStaysInOrder(printer: Printer, records: seq<Record>)
    requires InOrder(records)
    ensures InOrder(Packed(printer, records))
  {
    PicksArePacked(printer, records);
    var packed, picks := Packed(printer, records), Picks(printer, records);
    forall i, j | 0 <= i < j < |packed| ensures Rank(packed[i].classification) <= Rank(packed[j].classification) {
      assert packed[i] == records[picks[i]] && packed[j] == records[picks[j]];
    }
  }

  /**
   Below the record cap, a record that was passed over would not have fitted: adding it exceeds the byte
   cap. The count is for the longer flag, so there is one exception, and it is exact: the flag is the
   shorter one and the count is one byte over.
   */
  lemma {:induction false} PassedOverWouldNotFit(printer: Printer, records: seq<Record>, i: nat, truncated: bool)
    requires i < |records| && i !in Picks(printer, records)
    requires |Packed(printer, records)| < MAXIMUM_RECORDS
    ensures
      var included := Packed(printer, records);
      && Counted(printer, included, records[i]) > MAXIMUM_BYTES
      && (|AttachmentText(printer, Attachment(truncated, included + [records[i]]))| > MAXIMUM_BYTES <==>
            !(truncated && Counted(printer, included, records[i]) == MAXIMUM_BYTES + 1))
  {
    var included := Packed(printer, records);
    if Admits(printer, Packed(printer, records[..i]), records[i]) { AdmittedIsPicked(printer, records, i); }
    PackedGrows(printer, records, i);
    JoinedOneMore(printer, included, records[i]);
    TextLength(printer, Attachment(truncated, included + [records[i]]));
  }

  // ----- Encoding

  datatype Encoded = Encoded(body: string, attachment: Attachment, observed: nat, included: nat, dropped: nat)

  /** What is encoded: the greedy packing, flagged when anything is missing from it. */
  function EncodedAttachment(platform: Platform, printer: Printer, records: seq<Json>, truncated: bool): Attachment {
    var included := Packed(printer, Prioritized(Sanitized(platform, records)));
    Attachment(truncated || |included| < |records|, included)
  }

  method EncodeBrowserLifecycleAttachment(platform: Platform, printer: Printer, records: seq<Json>, truncated: bool)
      returns (e: Encoded)
    ensures e.attachment == EncodedAttachment(platform, printer, records, truncated)
    ensures e.body == AttachmentText(printer, e.attachment)
    ensures |e.body| <= MAXIMUM_BYTES && |e.attachment.records| <= MAXIMUM_RECORDS
    ensures e.observed == |records| && e.included == |e.attachment.records| && e.included + e.dropped == e.observed
    ensures InOrder(e.attachment.records)
  {
    hide SanitizeRecord, Joined, AttachmentText, Of;
    var sanitizedRecords: seq<Record> := [];
    for i := 0 to |records|
      invariant sanitizedRecords == Sanitized(platform, records[..i])
    {
      assert records[..i + 1][..i] == records[..i];
      var sanitized := SanitizeRecord(platform, records[i]);
      if sanitized.Some? {
        sanitizedRecords := sanitizedRecords + [sanitized.value];
      }
    }
    assert records[..|records|] == records;
    var prioritizedRecords := Prioritized(sanitizedRecords);
    ghost var packed := Packed(printer, prioritizedRecords);
    PriorityIsStable(sanitizedRecords, Completed);
    PackedStaysInOrder(printer, prioritizedRecords);
    PackedFits(printer, prioritizedRecords);
    var includedRecords := Pack(printer, prioritizedRecords);
    var droppedRecordCount := |records| - |includedRecords|;
    var attachment := Attachment(truncated || droppedRecordCount > 0, includedRecords);
    TextLength(printer, attachment);
    return Encoded(AttachmentText(printer, attachment), attachment, |records|, |includedRecords|, droppedRecordCount);
  }

  /** The packing loop: it keeps the included records and their bytes, and stops at the record cap. */
  method Pack(printer: Printer, prioritizedRecords: seq<Record>) returns (includedRecords: seq<Record>)
    ensures includedRecords == Packed(printer, prioritizedRecords)
  {
    hide Joined;
    var emptyTruncated := AttachmentText(printer, Attachment(true, []));
    var emptyWhole := AttachmentText(printer, Attachment(false, []));
    JoinedNothing(printer);
    TextLength(printer, Attachment(true, []));
    TextLength(printer, Attachment(false, []));
    hide AttachmentText;
    var emptyAttachmentBytes := if |emptyWhole| > |emptyTruncated| then |emptyWhole| else |emptyTruncated|;
    includedRecords := [];
    var includedRecordBytes := 0;
    for i := 0 to |prioritizedRecords|
      invariant includedRecords == Packed(printer, prioritizedRecords[..i])
      invariant includedRecordBytes == |Joined(printer, includedRecords)|
    {
      if |includedRecords| >= MAXIMUM_RECORDS {
        PackedGrows(printer, prioritizedRecords, i);
        return;
      }
      var record := prioritizedRecords[i];
      var recordBytes := |printer.recordText(record)|;
      var separatorBytes := if |includedRecords| == 0 then 0 else 1;
      assert prioritizedRecords[..i + 1][..i] == prioritizedRecords[..i];
      if emptyAttachmentBytes + includedRecordBytes + separatorBytes + recordBytes <= MAXIMUM_BYTES {
        JoinedOneMore(printer, includedRecords, record);
        includedRecords := includedRecords + [record];
        includedRecordBytes := includedRecordBytes + separatorBytes + recordBytes;
      }
    }
    assert prioritizedRecords[..|prioritizedRecords|] == prioritizedRecords;
  }

  lemma JoinedNothing(printer: Printer)
    ensures Joined(printer, []) == ""
  {
  }

  // ----- Parsing

  function Parse(platform: Platform, printer: Printer, content: string): Option<Attachment> {
    if |content| > MAXIMUM_BYTES then None
    else
      var value := printer.parse(content);
      var attachment := AsRecord(value);
      if value.None? || attachment.None? then None
      else
        var records := Get(attachment.value, RecordsKey);
        var truncated := AsBool(Get(attachment.value, TruncatedKey));
        if AsNumber(Get(attachment.value, SchemaVersionKey)) != Some(2.0) || records.None? || !records.value.Array?
           || truncated.None? then None
        else
          var items := records.value.items;
          var kept := Sanitized(platform, if |items| > MAXIMUM_RECORDS then items[..MAXIMUM_RECORDS] else items);
          if |items| > 0 && |kept| == 0 then None
          else Some(Attachment(truncated.value || |kept| < |items|, kept))
  }

  method ParseBrowserLifecycleAttachment(platform: Platform, printer: Printer, content: string)
      returns (r: Option<Attachment>)
    ensures r == Parse(platform, printer, content)
  {
    hide SanitizeRecord, Get;
    if |content| > MAXIMUM_BYTES {
      return None;
    }
    var parsedValue := printer.parse(content);
    if parsedValue.None? {
      return None;
    }
    var attachment := AsRecord(parsedValue);
    if attachment.None? {
      return None;
    }
    var records := Get(attachment.value, RecordsKey);
    var truncated := AsBool(Get(attachment.value, TruncatedKey));
    if AsNumber(Get(attachment.value, SchemaVersionKey)) != Some(2.0) || records.None? || !records.value.Array?
       || truncated.None? {
      return None;
    }
    var items := records.value.items;
    var considered := if |items| > MAXIMUM_RECORDS then items[..MAXIMUM_RECORDS] else items;
    var sanitizedRecords: seq<Record> := [];
    for i := 0 to |considered|
      invariant sanitizedRecords == Sanitized(platform, considered[..i])
    {
      assert considered[..i + 1][..i] == considered[..i];
      var sanitizedRecord := SanitizeRecord(platform, considered[i]);
      if sanitizedRecord.None? {
        continue;
      }
      sanitizedRecords := sanitizedRecords + [sanitizedRecord.value];
    }
    assert considered[..|considered|] == considered;
    if |items| > 0 && |sanitizedRecords| == 0 {
      return None;
    }
    return Some(Attachment(truncated.value || |sanitizedRecords| < |items|, sanitizedRecords));
  }

  // ----- Only safe values come through

  /** Whatever content is parsed, at most 100 records come out, and every one is safe. */
  lemma ParsedIsSafe(platform: Platform, printer: Printer, content: string, r: Record)
    requires Parse(platform, printer, content).Some? && r in Parse(platform, printer, content).value.records
    ensures |Parse(platform, printer, content).value.records| <= MAXIMUM_RECORDS && SafeRecord(platform, r)
  {
    hide SanitizeRecord, SafeRecord;
    var items := Get(AsRecord(printer.parse(content)).value, RecordsKey).value.items;
    var considered := if |items| > MAXIMUM_RECORDS then items[..MAXIMUM_RECORDS] else items;
    SanitizedAreSanitized(platform, considered, r);
    var value :| SanitizeRecord(platform, value) == Some(r);
    SanitizedIsSafe(platform, value, r);
  }

  /** Whatever is encoded, only safe records go in. */
  lemma EncodedIsSafe(platform: Platform, printer: Printer, records: seq<Json>, truncated: bool, r: Record)
    requires r in EncodedAttachment(platform, printer, records, truncated).records
    ensures SafeRecord(platform, r)
  {
    hide SanitizeRecord, SafeRecord, Sanitized, Prioritized, Packed;
    IncludedAreSanitized(platform, printer, records, r);
    var value :| SanitizeRecord(platform, value) == Some(r);
    SanitizedIsSafe(platform, value, r);
  }

  // ----- What was encoded is what is parsed

  predicate Short(r: Record) {
    |r.origin| <= IDENTIFIER_CAP
  }

  /** The records whose origin is within the cap. */
  function WithinCap(records: seq<Record>): (kept: seq<Record>)
    ensures |kept| <= |records|
    ensures |kept| == |records| <==> forall i :: 0 <= i < |records| ==> Short(records[i])
    ensures |kept| == |records| ==> kept == records
  {
    if records == [] then []
    else
      var last := records[|records| - 1];
      WithinCap(records[..|records| - 1]) + if Short(last) then [last] else []
  }

  lemma {:induction false} SanitizedAreSanitized(platform: Platform, values: seq<Json>, r: Record)
    requires r in Sanitized(platform, values)
    ensures IsSanitized(platform, r)
  {
    hide SanitizeRecord;
    if SanitizeRecord(platform, values[|values| - 1]) != Some(r) {
      SanitizedAreSanitized(platform, values[..|values| - 1], r);
    }
  }

  lemma {:induction false} AgainIsWithinCap(platform: Platform, records: seq<Record>)
    requires Lawful(platform) && forall r :: r in records ==> IsSanitized(platform, r)
    ensures Sanitized(platform, RecordsJson(records)) == WithinCap(records)
  {
    hide SanitizeRecord, RecordJson, Lawful;
    if records != [] {
      var earlier, last := records[..|records| - 1], records[|records| - 1];
      AgainIsWithinCap(platform, earlier);
      assert RecordsJson(records)[..|records| - 1] == RecordsJson(earlier);
      assert IsSanitized(platform, last);
      var value :| SanitizeRecord(platform, value) == Some(last);
      RecordIsKept(platform, value, last);
    }
  }

  /** Parsing gives back the attachment without the records whose origin outgrew the cap. */
  lemma ParseOfText(platform: Platform, printer: Printer, a: Attachment)
    requires Lawful(platform) && forall r :: r in a.records ==> IsSanitized(platform, r)
    requires |AttachmentText(printer, a)| <= MAXIMUM_BYTES && |a.records| <= MAXIMUM_RECORDS
    requires printer.parse(AttachmentText(printer, a)) == Some(AttachmentJson(a))
    ensures
      var kept := WithinCap(a.records);
      Parse(platform, printer, AttachmentText(printer, a)) ==
        if a.records != [] && kept == [] then None
        else Some(Attachment(a.truncated || |kept| < |a.records|, kept))
  {
    hide Sanitized, WithinCap, AttachmentText, Lawful;
    AgainIsWithinCap(platform, a.records);
  }

  /**
   Parsing an encoded attachment gives the attachment back exactly when every included record's origin is
   within the cap it is read under. The printer's parse is taken to undo printing on this attachment.
   */
  lemma ParseUndoesEncode(platform: Platform, printer: Printer, records: seq<Json>, truncated: bool)
    requires Lawful(platform)
    requires
      var a := EncodedAttachment(platform, printer, records, truncated);
      printer.parse(AttachmentText(printer, a)) == Some(AttachmentJson(a))
    ensures
      var a := EncodedAttachment(platform, printer, records, truncated);
      Parse(platform, printer, AttachmentText(printer, a)) == Some(a) <==>
        forall i :: 0 <= i < |a.records| ==> Short(a.records[i])
  {
    hide Sanitized, Prioritized, Packed, AttachmentText, AttachmentJson, Joined, Lawful, Parse, WithinCap;
    var a := EncodedAttachment(platform, printer, records, truncated);
    var sanitized := Sanitized(platform, records);
    var prioritized := Prioritized(sanitized);
    PackedFits(printer, prioritized);
    TextLength(printer, a);
    forall r | r in a.records ensures IsSanitized(platform, r) {
      IncludedAreSanitized(platform, printer, records, r);
    }
    ParseOfText(platform, printer, a);
  }

  lemma IncludedAreSanitized(platform: Platform, printer: Printer, records: seq<Json>, r: Record)
    requires r in Packed(printer, Prioritized(Sanitized(platform, records)))
    ensures IsSanitized(platform, r)
  {
    hide Sanitized, IsSanitized;
    var sanitized := Sanitized(platform, records);
    var prioritized := Prioritized(sanitized);
    PicksArePacked(printer, prioritized);
    var i :| 0 <= i < |Packed(printer, prioritized)| && Packed(printer, prioritized)[i] == r;
    assert prioritized[Picks(printer, prioritized)[i]] == r;
    PriorityIsStable(sanitized, r.classification);
    ClassMembers(prioritized, r);
    OfIsWithin(sanitized, r.classification, r);
    SanitizedAreSanitized(platform, records, r);
  }

  lemma {:induction false} ClassMembers(records: seq<Record>, r: Record)
    requires r in records
    ensures r in Of(records, r.classification)
  {
    if r != records[|records| - 1] {
      ClassMembers(records[..|records| - 1], r);
    }
  }

  lemma {:induction false} OfIsWithin(records: seq<Record>, c: Classification, r: Record)
    requires r in Of(records, c)
    ensures r in records
  {
    if r != records[|records| - 1] {
      OfIsWithin(records[..|records| - 1], c, r);
    }
  }

  // ----- The two exceptions happen

  /** What is encoded of one value that sanitizes. */
  lemma EncodedAlone(platform: Platform, printer: Printer, value: Json, r: Record, truncated: bool)
    requires SanitizeRecord(platform, value) == Some(r)
    ensures
      var fits := EMPTY_BYTES + |printer.recordText(r)| <= MAXIMUM_BYTES;
      EncodedAttachment(platform, printer, [value], truncated)
        == if fits then Attachment(truncated, [r]) else Attachment(true, [])
  {
    hide SanitizeRecord;
    assert [value][..0] == [] && [r][..0] == [];
    assert Sanitized(platform, [value]) == [r];
    PriorityIsStable([r], r.classification);
    OfOneClass([r], r.classification, r.classification);
    assert Of([r], r.classification) == [r];
    OfOneClass(Prioritized([r]), Prioritized([r])[0].classification, r.classification);
    assert Prioritized([r]) == [r];
    JoinedNothing(printer);
  }

  /**
   A value whose record takes 65,487 bytes is dropped from an attachment that is truncated anyway, though the
   attachment with it has exactly 65,536 bytes.
   */
  lemma DroppedThoughItFits(platform: Platform, printer: Printer, value: Json, r: Record)
    requires SanitizeRecord(platform, value) == Some(r) && |printer.recordText(r)| == 65_487
    ensures EncodedAttachment(platform, printer, [value], true).records == []
    ensures |AttachmentText(printer, Attachment(true, [r]))| == MAXIMUM_BYTES
  {
    hide SanitizeRecord;
    EncodedAlone(platform, printer, value, r, true);
    JoinedNothing(printer);
    JoinedOneMore(printer, [], r);
    assert [] + [r] == [r];
    TextLength(printer, Attachment(true, [r]));
  }

  /** The record with a failure event whose error text has n characters after its prefix. */
  function WithError(r: Record, n: nat): Record {
    var errorText := "net::" + seq(n, _ => 'A');
    r.(loadingFailed := Some(FailureEvent(None, None, Some(errorText), None, None, None)))
  }

  /** Nothing limits an error text, so a safe record can be made as long as one likes. */
  lemma ErrorTextIsUncapped(platform: Platform, r: Record, n: nat)
    requires SafeRecord(platform, r) && n > 0
    ensures SafeRecord(platform, WithError(r, n))
  {
    hide SafeEvent, SafeConnection, SafeBytes, SafeText, SafeHex, SafeNumber, SafeVerb, SafePath, SafeOrigin;
    var failure := WithError(r, n).loadingFailed.value;
    NothingTimed(platform);
    NothingSaid();
    assert failure.errorText.value[..5] == "net::" && failure.errorText.value[5..] == seq(n, _ => 'A');
  }

  lemma NothingSaid()
    ensures SafeText(None, IsIdentifierChar)
  {
  }

  /**
   On every lawful platform with a safe record, and every printer that prints an error text character by
   character, some value is dropped though it fits.
   */
  lemma SomethingIsDropped(platform: Platform, printer: Printer, r: Record, base: nat) returns (value: Json, long: Record)
    requires Lawful(platform) && SafeRecord(platform, r) && base < 65_487
    requires forall n: nat {:trigger WithError(r, n)} :: n > 0 ==> |printer.recordText(WithError(r, n))| == base + n
    ensures SanitizeRecord(platform, value) == Some(long)
    ensures EncodedAttachment(platform, printer, [value], true).records == []
    ensures |AttachmentText(printer, Attachment(true, [long]))| == MAXIMUM_BYTES
  {
    hide Lawful, SafeRecord, SanitizeRecord, WithError, EncodedAttachment, AttachmentText;
    ErrorTextIsUncapped(platform, r, 65_487 - base);
    long := WithError(r, 65_487 - base);
    SafeIsSanitized(platform, long);
    value :| SanitizeRecord(platform, value) == Some(long);
    DroppedThoughItFits(platform, printer, value, long);
  }

  /**
   On every lawful platform with a safe record whose origin has outgrown the cap, some value is encoded and
   then not parsed at all.
   */
  lemma LongOriginIsLost(platform: Platform, printer: Printer, r: Record, truncated: bool) returns (value: Json)
    requires Lawful(platform) && SafeRecord(platform, r) && !Short(r)
    requires EMPTY_BYTES + |printer.recordText(r)| <= MAXIMUM_BYTES
    requires
      var a := Attachment(truncated, [r]);
      printer.parse(AttachmentText(printer, a)) == Some(AttachmentJson(a))
    ensures
      var a := EncodedAttachment(platform, printer, [value], truncated);
      a.records == [r] && Parse(platform, printer, AttachmentText(printer, a)) == None
  {
    hide Lawful, SafeRecord, SanitizeRecord, AttachmentText, AttachmentJson, Parse, EncodedAttachment;
    SafeIsSanitized(platform, r);
    value :| SanitizeRecord(platform, value) == Some(r);
    EncodedAlone(platform, printer, value, r, truncated);
    var a := Attachment(truncated, [r]);
    JoinedNothing(printer);
    JoinedOneMore(printer, [], r);
    assert [] + [r] == [r];
    TextLength(printer, a);
    ParseOfText(platform, printer, a);
  }

  /** There is a lawful platform with such a record: a one-letter address with an origin of 257 characters. */
  lemma LongOriginExists() returns (platform: Platform, r: Record)
    ensures Lawful(platform) && SafeRecord(platform, r) && !Short(r)
  {
    var long := seq(257, _ => 'a');
    var url := s => if s == "u" || s == long then Some(Url("http:", long)) else None;
    platform := Platform(s => s, s => s, url, s => if s == "d" then Some(0) else None, _ => "d");
    r := Record("GET", long, "/", Event(Some(Timestamp("d", None)), None), None, None, None, None, None, None, None,
                None, None, None, None, None, None, Completed);
    assert platform.url("u") == Some(Url("http:", long));
    assert platform.parseDate("d") == Some(0);
    assert All("GET", IsUpper);
  }
}
