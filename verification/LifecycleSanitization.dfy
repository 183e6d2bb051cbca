/**
 Which values a lifecycle record may carry: every field is read from an untrusted value and kept only in
 a safe form. Reading a safe form again gives the same form.
 */
module LifecycleSanitization {
  import opened JsText
  import opened Options

  /** The property names the sanitizers look at; no other member of an object matters. */
  datatype Key =
    | MethodKey | OriginKey | PathTemplateKey | ClassificationKey | RequestStartedKey | ResponseReceivedKey
    | LoadingFinishedKey | LoadingFailedKey | PlaywrightRequestKeyKey | CdpRequestIdKey | LoaderIdKey
    | ApiGatewayRequestIdKey | TraceIdKey | SpanIdKey | HttpStatusKey | ProtocolKey | ConnectionKey
    | EncodedBytesKey | CdpKey | PlaywrightKey | UtcKey | MonotonicKey | ErrorTextKey | CanceledKey
    | BlockedReasonKey | CorsErrorStatusKey | IdKey | ReusedKey | RemoteEndpointKey | IpAddressKey | PortKey
    | DataKey | ResponseHeadersKey | TotalKey | SchemaVersionKey | TruncatedKey | RecordsKey

  /** An unknown value. Other stands for anything that is not null, boolean, finite number, text, array or object. */
  datatype Json =
    | Null
    | Bool(truth: bool)
    | Number(number: real)
    | Text(text: string)
    | Array(items: seq<Json>)
    | Object(members: map<Key, Json>)
    | Other

  datatype Url = Url(protocol: string, origin: string)

  /** What the platform computes: case mapping, URL parsing, dates. None is a thrown error or NaN. */
  datatype Platform = Platform(
    upper: string -> string,
    lower: string -> string,
    url: string -> Option<Url>,
    parseDate: string -> Option<int>,
    isoDate: int -> string)

  predicate IsWeb(url: Url) {
    url.protocol == "http:" || url.protocol == "https:"
  }

  predicate IsUpper(c: char) {
    'A' <= c <= 'Z'
  }

  predicate IsDigit(c: char) {
    '0' <= c <= '9'
  }

  predicate IsHex(c: char) {
    IsDigit(c) || 'a' <= c <= 'f'
  }

  predicate All(s: string, allowed: char -> bool) {
    forall i :: 0 <= i < |s| ==> allowed(s[i])
  }

  /** Upper and lower case text is its own upper and lower case; origins and ISO dates read back as themselves. */
  ghost predicate Lawful(platform: Platform) {
    && (forall s :: All(s, IsUpper) ==> platform.upper(s) == s)
    && (forall s :: All(s, IsHex) ==> platform.lower(s) == s)
    && (forall s {:trigger platform.url(s)} :: platform.url(s).Some? && IsWeb(platform.url(s).value) ==>
          var origin := platform.url(s).value.origin;
          origin != "" && platform.url(origin) == Some(Url(platform.url(s).value.protocol, origin)))
    && (forall s {:trigger platform.parseDate(s)} :: platform.parseDate(s).Some? ==>
          var utc := platform.isoDate(platform.parseDate(s).value);
          utc != "" && platform.parseDate(utc) == platform.parseDate(s))
  }

  // ----- Type guards

  function AsText(value: Option<Json>): Option<string> {
    if value.Some? && value.value.Text? then Some(value.value.text) else None
  }

  function AsNumber(value: Option<Json>): Option<real> {
    if value.Some? && value.value.Number? then Some(value.value.number) else None
  }

  function AsBool(value: Option<Json>): Option<bool> {
    if value.Some? && value.value.Bool? then Some(value.value.truth) else None
  }

  /** An array is a record too, one without any of the names looked for. */
  function AsRecord(value: Option<Json>): Option<map<Key, Json>> {
    match value
    case Some(Object(members)) => Some(members)
    case Some(Array(_)) => Some(map[])
    case _ => None
  }

  function Get(members: map<Key, Json>, key: Key): Option<Json> {
    if key in members then Some(members[key]) else None
  }

  // ----- Field sanitizers

  const IDENTIFIER_CAP: int := 256
  const PATH_CAP: int := 512
  const MAX_SAFE_INTEGER: real := 9007199254740991.0

  function Method(platform: Platform, value: Option<Json>): Option<string> {
    match AsText(value)
    case None => None
    case Some(text) =>
      var verb := platform.upper(Trim(text));
      if verb == "" || |verb| > 16 || !All(verb, IsUpper) then None else Some(verb)
  }

  function Origin(platform: Platform, value: Option<Json>): Option<string> {
    match AsText(value)
    case None => None
    case Some(text) =>
      if text == "" || |text| > IDENTIFIER_CAP then None
      else match platform.url(text)
        case None => None
        case Some(url) => if IsWeb(url) then Some(url.origin) else None
  }

  /** Up to the first question mark or hash. */
  function WithoutQuery(text: string): (path: string)
    ensures forall i :: 0 <= i < |path| ==> path[i] != '?' && path[i] != '#'
  {
    if text == "" || text[0] == '?' || text[0] == '#' then "" else [text[0]] + WithoutQuery(text[1..])
  }

  function PathTemplate(value: Option<Json>): Option<string> {
    match AsText(value)
    case None => None
    case Some(text) =>
      var path := WithoutQuery(text);
      if path == "" || path[0] != '/' || |path| > PATH_CAP then None else Some(path)
  }

  datatype Classification = NoResponseHeaders | HeadersWithoutBodyCompletion | NetworkFailure | Completed

  function ClassificationText(c: Classification): string {
    match c
    case NoResponseHeaders => "no_response_headers"
    case HeadersWithoutBodyCompletion => "headers_without_body_completion"
    case NetworkFailure => "network_failure"
    case Completed => "completed"
  }

  function ClassificationOf(value: Option<Json>): Option<Classification> {
    match AsText(value)
    case None => None
    case Some(text) =>
      if text == ClassificationText(NoResponseHeaders) then Some(NoResponseHeaders)
      else if text == ClassificationText(HeadersWithoutBodyCompletion) then Some(HeadersWithoutBodyCompletion)
      else if text == ClassificationText(NetworkFailure) then Some(NetworkFailure)
      else if text == ClassificationText(Completed) then Some(Completed)
      else None
  }

  predicate IsIdentifierChar(c: char) {
    IsWordChar(c) || c in ":=./+-"
  }

  predicate IsProtocolChar(c: char) {
    IsWordChar(c) || c in "./-"
  }

  predicate IsAddressChar(c: char) {
    IsDigit(c) || 'A' <= c <= 'F' || 'a' <= c <= 'f' || c in ":."
  }

  /** Text of at most 256 safe characters, and at least one. */
  function Safe(value: Option<Json>, allowed: char -> bool): Option<string> {
    match AsText(value)
    case None => None
    case Some(text) => if text != "" && |text| <= IDENTIFIER_CAP && All(text, allowed) then Some(text) else None
  }

  function Identifier(value: Option<Json>): Option<string> {
    Safe(value, IsIdentifierChar)
  }

  function Protocol(value: Option<Json>): Option<string> {
    Safe(value, IsProtocolChar)
  }

  function IpAddress(value: Option<Json>): Option<string> {
    Safe(value, IsAddressChar)
  }

  const ESCAPE: char := '\U{001B}'

  /** The length of the digits and semicolons at the start. */
  function Parameters(text: string): (n: nat)
    ensures n <= |text|
  {
    if text != "" && (IsDigit(text[0]) || text[0] == ';') then 1 + Parameters(text[1..]) else 0
  }

  /** The length of the colour sequence at the start, 0 if there is none. */
  function ColourSequence(text: string): (n: nat)
    ensures n <= |text| && (n > 0 ==> text[0] == ESCAPE)
  {
    if |text| < 2 || text[0] != ESCAPE || text[1] != '[' then 0
    else
      var end := 2 + Parameters(text[2..]);
      if end < |text| && text[end] == 'm' then end + 1 else 0
  }

  function StripAnsi(text: string): string
    decreases |text|
  {
    if text == "" then ""
    else if ColourSequence(text) > 0 then StripAnsi(text[ColourSequence(text)..])
    else [text[0]] + StripAnsi(text[1..])
  }

  predicate IsErrorChar(c: char) {
    IsUpper(c) || IsDigit(c) || c == '_'
  }

  predicate IsNetworkError(text: string) {
    |text| > 5 && text[..5] == "net::" && All(text[5..], IsErrorChar)
  }

  function NetworkError(value: Option<Json>): Option<string> {
    match AsText(value)
    case None => None
    case Some(text) =>
      var stripped := Trim(StripAnsi(text));
      if IsNetworkError(stripped) then Some(stripped) else None
  }

  function HexIdentifier(platform: Platform, value: Option<Json>, length: nat): Option<string> {
    match AsText(value)
    case None => None
    case Some(text) =>
      var identifier := platform.lower(text);
      if |identifier| == length && All(identifier, IsHex) && !All(identifier, c => c == '0') then Some(identifier) else None
  }

  function NonNegative(value: Option<Json>): Option<real> {
    match AsNumber(value)
    case None => None
    case Some(number) => if 0.0 <= number <= MAX_SAFE_INTEGER then Some(number) else None
  }

  // ----- Reading a kept value again

  function OfText(text: Option<string>): Option<Json> {
    if text.Some? then Some(Text(text.value)) else None
  }

  function OfNumber(number: Option<real>): Option<Json> {
    if number.Some? then Some(Number(number.value)) else None
  }

  function OfBool(truth: Option<bool>): Option<Json> {
    if truth.Some? then Some(Bool(truth.value)) else None
  }

  lemma TrimKeeps(text: string)
    requires text != "" ==> !IsSpace(text[0]) && !IsSpace(text[|text| - 1])
    ensures Trim(text) == text
  {
  }

  predicate SafeVerb(verb: string) {
    0 < |verb| <= 16 && All(verb, IsUpper)
  }

  lemma VerbIsSafe(platform: Platform, value: Option<Json>)
    ensures Method(platform, value).Some? ==> SafeVerb(Method(platform, value).value)
  {
  }

  lemma VerbReads(platform: Platform, verb: string)
    requires Lawful(platform) && SafeVerb(verb)
    ensures Method(platform, Some(Text(verb))) == Some(verb)
  {
    TrimKeeps(verb);
  }

  /** What serialising the origin of some web address gives; it may be longer than the address. */
  ghost predicate SafeOrigin(platform: Platform, origin: string) {
    && origin != ""
    && exists text {:trigger platform.url(text)} ::
         && 0 < |text| <= IDENTIFIER_CAP
         && platform.url(text).Some? && IsWeb(platform.url(text).value) && platform.url(text).value.origin == origin
  }

  lemma OriginIsSafe(platform: Platform, value: Option<Json>)
    ensures Origin(platform, value).Some? && Origin(platform, value).value != "" ==>
      SafeOrigin(platform, Origin(platform, value).value)
  {
  }

  /** Such an origin is accepted, unchanged, exactly when it is no longer than the cap. */
  lemma OriginReads(platform: Platform, origin: string)
    requires Lawful(platform) && SafeOrigin(platform, origin)
    ensures Origin(platform, Some(Text(origin))) == if |origin| <= IDENTIFIER_CAP then Some(origin) else None
  {
  }

  predicate SafePath(path: string) {
    && 0 < |path| <= PATH_CAP && path[0] == '/'
    && forall i :: 0 <= i < |path| ==> path[i] != '?' && path[i] != '#'
  }

  lemma PathIsSafe(value: Option<Json>)
    ensures PathTemplate(value).Some? ==> SafePath(PathTemplate(value).value)
  {
  }

  lemma PathReads(path: string)
    requires SafePath(path)
    ensures PathTemplate(Some(Text(path))) == Some(path)
  {
    WithoutQueryKeeps(path);
  }

  lemma {:induction false} WithoutQueryKeeps(text: string)
    requires forall i :: 0 <= i < |text| ==> text[i] != '?' && text[i] != '#'
    ensures WithoutQuery(text) == text
  {
    if text != "" {
      WithoutQueryKeeps(text[1..]);
    }
  }

  lemma PathTemplateIsKept(value: Option<Json>)
    ensures PathTemplate(OfText(PathTemplate(value))) == PathTemplate(value)
  {
    PathIsSafe(value);
    if PathTemplate(value).Some? {
      PathReads(PathTemplate(value).value);
    }
  }

  lemma {:induction false} StripAnsiKeeps(text: string)
    requires forall i :: 0 <= i < |text| ==> text[i] != ESCAPE
    ensures StripAnsi(text) == text
  {
    if text != "" {
      StripAnsiKeeps(text[1..]);
    }
  }

  lemma NetworkErrorChars(text: string, i: nat)
    requires IsNetworkError(text) && i < |text|
    ensures text[i] != ESCAPE && !IsSpace(text[i])
  {
    if i < 5 {
      assert text[i] == text[..5][i];
      assert text[i] in "net::";
    } else {
      assert text[i] == text[5..][i - 5];
    }
  }

  lemma NetworkErrorReads(text: string)
    requires IsNetworkError(text)
    ensures NetworkError(Some(Text(text))) == Some(text)
  {
    hide IsSpace, IsNetworkError;
    forall i | 0 <= i < |text| ensures text[i] != ESCAPE && !IsSpace(text[i]) {
      NetworkErrorChars(text, i);
    }
    StripAnsiKeeps(text);
    TrimKeeps(text);
  }

  lemma NetworkErrorIsKept(value: Option<Json>)
    ensures NetworkError(OfText(NetworkError(value))) == NetworkError(value)
  {
    if NetworkError(value).Some? {
      NetworkErrorReads(NetworkError(value).value);
    }
  }

  predicate SafeText(text: Option<string>, allowed: char -> bool) {
    text.Some? ==> 0 < |text.value| <= IDENTIFIER_CAP && All(text.value, allowed)
  }

  lemma TextIsSafe(value: Option<Json>, allowed: char -> bool)
    ensures SafeText(Safe(value, allowed), allowed)
  {
  }

  lemma TextReads(text: Option<string>, allowed: char -> bool)
    requires SafeText(text, allowed)
    ensures Safe(OfText(text), allowed) == text
  {
  }

  predicate SafeHex(text: Option<string>, length: nat) {
    text.Some? ==> |text.value| == length && All(text.value, IsHex) && !All(text.value, c => c == '0')
  }

  lemma HexIsSafe(platform: Platform, value: Option<Json>, length: nat)
    ensures SafeHex(HexIdentifier(platform, value, length), length)
  {
  }

  lemma HexReads(platform: Platform, text: Option<string>, length: nat)
    requires Lawful(platform) && SafeHex(text, length)
    ensures HexIdentifier(platform, OfText(text), length) == text
  {
  }

  predicate SafeNumber(number: Option<real>) {
    number.Some? ==> 0.0 <= number.value <= MAX_SAFE_INTEGER
  }

  lemma NumberIsSafe(value: Option<Json>)
    ensures SafeNumber(NonNegative(value))
  {
  }

  lemma NumberReads(number: Option<real>)
    requires SafeNumber(number)
    ensures NonNegative(OfNumber(number)) == number
  {
  }

  lemma ClassificationIsKept(c: Classification)
    ensures ClassificationOf(Some(Text(ClassificationText(c)))) == Some(c)
  {
    assert |ClassificationText(NoResponseHeaders)| == 19;
    assert |ClassificationText(HeadersWithoutBodyCompletion)| == 31;
    assert |ClassificationText(NetworkFailure)| == 15;
    assert |ClassificationText(Completed)| == 9;
  }
}
