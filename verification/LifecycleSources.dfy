/**
 What a sanitized value says of the untrusted one it came from, told without the sanitizers: every field, for every
 input, safe or not.
 */
module LifecycleSources {
  import opened JsText
  import opened LifecycleContract
  import opened LifecycleSanitization
  import opened Options

  // ----- Texts

  /** A colour sequence of a terminal: escape, bracket, digits and semicolons, m. */
  predicate IsColour(s: string) {
    && |s| >= 3 && s[0] == '\U{001B}' && s[1] == '[' && s[|s| - 1] == 'm'
    && forall k :: 2 <= k < |s| - 1 ==> '0' <= s[k] <= '9' || s[k] == ';'
  }

  ghost predicate InColour(text: string, k: nat) {
    exists i, j :: ColourSpans(text, i, k, j)
  }

  ghost predicate ColourSpans(text: string, i: nat, k: nat, j: nat) {
    i <= k < j <= |text| && IsColour(text[i..j])
  }

  /** Increasing places of text, one for each character of s. */
  ghost predicate PicksFrom(s: string, text: string, at: seq<nat>) {
    && |at| == |s|
    && (forall i :: 0 <= i < |at| ==> at[i] < |text| && s[i] == text[at[i]])
    && (forall i, j :: 0 <= i < j < |at| ==> at[i] < at[j])
  }

  /** s is text without its colour sequences. */
  ghost predicate IsStripped(text: string, s: string) {
    exists at :: ArePicks(s, text, at)
  }

  /** The places outside every colour sequence. */
  ghost predicate ArePicks(s: string, text: string, at: seq<nat>) {
    PicksFrom(s, text, at) && forall k: nat :: k in at <==> k < |text| && !InColour(text, k)
  }

  lemma {:induction false} ParametersEnd(text: string, n: nat)
    requires n < |text| && text[n] == 'm' && forall k :: 0 <= k < n ==> '0' <= text[k] <= '9' || text[k] == ';'
    ensures Parameters(text) == n
  {
    if n > 0 {
      ParametersEnd(text[1..], n - 1);
    }
  }

  lemma {:induction false} ParametersAre(text: string)
    ensures forall k :: 0 <= k < Parameters(text) ==> '0' <= text[k] <= '9' || text[k] == ';'
  {
    if text != "" && Parameters(text) > 0 {
      ParametersAre(text[1..]);
    }
  }

  /** The colour sequence found at the start is the one there is. */
  lemma ColourIsFound(text: string, j: nat)
    requires j <= |text|
    ensures IsColour(text[..j]) <==> j > 0 && ColourSequence(text) == j
  {
    if |text| >= 2 {
      ParametersAre(text[2..]);
      assert forall k :: 2 <= k < |text| ==> text[k] == text[2..][k - 2];
      if IsColour(text[..j]) {
        ParametersEnd(text[2..], j - 3);
      }
    }
  }

  /** Without a colour sequence at the start, the rest is told by itself. */
  lemma ColourAfterOne(text: string, k: nat)
    requires text != "" && ColourSequence(text) == 0 && k < |text|
    ensures InColour(text, k) <==> k > 0 && InColour(text[1..], k - 1)
  {
    hide IsColour;
    if i: nat, j: nat :| ColourSpans(text, i, k, j) {
      assert text[0..j] == text[..j];
      ColourIsFound(text, j);
      assert i > 0 && text[1..][i - 1..j - 1] == text[i..j];
      assert ColourSpans(text[1..], i - 1, k - 1, j - 1);
    }
    if k > 0 && InColour(text[1..], k - 1) {
      var i: nat, j: nat :| ColourSpans(text[1..], i, k - 1, j);
      assert text[1..][i..j] == text[i + 1..j + 1];
      assert ColourSpans(text, i + 1, k, j + 1);
    }
  }

  /** Behind a colour sequence at the start, the rest is told by itself: no two sequences overlap. */
  lemma ColourAfterColour(text: string, k: nat)
    requires ColourSequence(text) > 0 && k < |text|
    ensures
      var c := ColourSequence(text);
      InColour(text, k) <==> k < c || InColour(text[c..], k - c)
  {
    var c := ColourSequence(text);
    ColourIsFound(text, c);
    if k < c {
      assert text[0..c] == text[..c];
      assert ColourSpans(text, 0, k, c);
    } else {
      if i: nat, j: nat :| ColourSpans(text, i, k, j) {
        StartsAfter(text, c, i, j);
        assert text[c..][i - c..j - c] == text[i..j];
        assert ColourSpans(text[c..], i - c, k - c, j - c);
      }
      if InColour(text[c..], k - c) {
        var i: nat, j: nat :| ColourSpans(text[c..], i, k - c, j);
        assert text[c..][i..j] == text[i + c..j + c];
        assert ColourSpans(text, i + c, k, j + c);
      }
    }
  }

  /** Only the first character of a colour sequence is the escape, and only the last is the m. */
  lemma ColourEnds(text: string, i: nat, j: nat, k: nat)
    requires i <= k < j <= |text| && IsColour(text[i..j])
    ensures text[k] == '\U{001B}' <==> k == i
    ensures text[k] == 'm' <==> k == j - 1
  {
    assert text[k] == text[i..j][k - i];
  }

  lemma StartsAfter(text: string, c: nat, i: nat, j: nat)
    requires c <= |text| && IsColour(text[..c]) && i < j <= |text| && IsColour(text[i..j]) && j > c
    ensures i >= c
  {
    ColourEnds(text, i, j, i);
    assert text[0..c] == text[..c];
    hide IsColour;
    if i < c {
      ColourEnds(text, i, j, c - 1);
      ColourEnds(text, 0, c, c - 1);
      ColourEnds(text, 0, c, i);
    }
  }

  function Shifted(at: seq<nat>, shift: nat): seq<nat> {
    seq(|at|, i requires 0 <= i < |at| => at[i] + shift)
  }

  lemma ShiftedMembers(at: seq<nat>, shift: nat, k: nat)
    ensures k in Shifted(at, shift) <==> k >= shift && k - shift in at
  {
    if k >= shift && k - shift in at {
      var i :| 0 <= i < |at| && at[i] == k - shift;
      assert Shifted(at, shift)[i] == k;
    }
  }

  lemma {:induction false} StripPicks(text: string) returns (at: seq<nat>)
    ensures ArePicks(StripAnsi(text), text, at)
    decreases |text|
  {
    at := [];
    if text != "" {
      var c := ColourSequence(text);
      if c > 0 {
        var rest := StripPicks(text[c..]);
        at := Shifted(rest, c);
        PicksBehindColour(text, StripAnsi(text[c..]), rest);
      } else {
        var rest := StripPicks(text[1..]);
        at := [0] + Shifted(rest, 1);
        PicksBehindOne(text, StripAnsi(text[1..]), rest);
      }
    }
  }

  lemma PicksBehindColour(text: string, s: string, rest: seq<nat>)
    requires ColourSequence(text) > 0 && ArePicks(s, text[ColourSequence(text)..], rest)
    ensures ArePicks(s, text, Shifted(rest, ColourSequence(text)))
  {
    hide ColourSequence, InColour;
    var c := ColourSequence(text);
    var at := Shifted(rest, c);
    forall k: nat ensures k in at <==> k < |text| && !InColour(text, k) {
      ShiftedMembers(rest, c, k);
      if k < |text| { ColourAfterColour(text, k); }
    }
  }

  lemma PicksBehindOne(text: string, s: string, rest: seq<nat>)
    requires text != "" && ColourSequence(text) == 0 && ArePicks(s, text[1..], rest)
    ensures ArePicks([text[0]] + s, text, [0] + Shifted(rest, 1))
  {
    hide ColourSequence, InColour;
    var at := [0] + Shifted(rest, 1);
    forall k: nat ensures k in at <==> k < |text| && !InColour(text, k) {
      ShiftedMembers(rest, 1, k);
      if k < |text| { ColourAfterOne(text, k); }
    }
  }

  lemma StripIsStripped(text: string)
    ensures IsStripped(text, StripAnsi(text))
  {
    hide StripAnsi, InColour, PicksFrom;
    var at := StripPicks(text);
  }

  /** Increasing sequences with the same members are the same. */
  lemma {:induction false} SamePicks(a: seq<nat>, b: seq<nat>)
    requires forall i, j :: 0 <= i < j < |a| ==> a[i] < a[j]
    requires forall i, j :: 0 <= i < j < |b| ==> b[i] < b[j]
    requires forall k: nat :: k in a <==> k in b
    ensures a == b
  {
    assert a != [] ==> a[|a| - 1] in a;
    assert b != [] ==> b[|b| - 1] in b;
    if a != [] && b != [] {
      var m, n := |a| - 1, |b| - 1;
      assert a[m] == b[n];
      forall k: nat ensures k in a[..m] <==> k in b[..n] {
        assert k in a[..m] <==> k in a && k != a[m];
        assert k in b[..n] <==> k in b && k != b[n];
      }
      SamePicks(a[..m], b[..n]);
      assert a == a[..m] + [a[m]] && b == b[..n] + [b[n]];
    }
  }

  lemma StrippedIsUnique(text: string, s: string, t: string)
    requires IsStripped(text, s) && IsStripped(text, t)
    ensures s == t
  {
    hide InColour;
    var a: seq<nat> :| ArePicks(s, text, a);
    var b: seq<nat> :| ArePicks(t, text, b);
    SamePicks(a, b);
  }

  // ----- Fields

  ghost predicate VerbOf(platform: Platform, value: Option<Json>, verb: string) {
    exists text, s :: value == Some(Text(text)) && IsTrimmed(text, s) && verb == platform.upper(s)
      && 0 < |verb| <= 16 && All(verb, c => 'A' <= c <= 'Z')
  }

  ghost predicate OriginOf(platform: Platform, value: Option<Json>, origin: string) {
    exists text, url :: value == Some(Text(text)) && 0 < |text| <= 256 && platform.url(text) == Some(url)
      && (url.protocol == "http:" || url.protocol == "https:") && origin == url.origin
  }

  predicate IsMark(c: char) {
    c == '?' || c == '#'
  }

  /** The text up to its first question mark or hash, whatever follows. */
  ghost predicate PathOf(value: Option<Json>, path: string) {
    exists text: string, k: nat :: value == Some(Text(text)) && k <= |text| && path == text[..k]
      && (k < |text| ==> IsMark(text[k])) && (forall i :: 0 <= i < k ==> !IsMark(text[i]))
      && 0 < |path| <= 512 && path[0] == '/'
  }

  predicate ClassOf(value: Option<Json>, c: Classification) {
    match c
    case NoResponseHeaders => value == Some(Text("no_response_headers"))
    case HeadersWithoutBodyCompletion => value == Some(Text("headers_without_body_completion"))
    case NetworkFailure => value == Some(Text("network_failure"))
    case Completed => value == Some(Text("completed"))
  }

  predicate NameOf(value: Option<Json>, allowed: char -> bool, name: string) {
    value == Some(Text(name)) && 0 < |name| <= 256 && All(name, allowed)
  }

  ghost predicate HexOf(platform: Platform, value: Option<Json>, length: nat, hex: string) {
    exists text :: value == Some(Text(text)) && hex == platform.lower(text) && |hex| == length
      && All(hex, c => '0' <= c <= '9' || 'a' <= c <= 'f') && exists i :: 0 <= i < |hex| && hex[i] != '0'
  }

  ghost predicate ErrorOf(value: Option<Json>, error: string) {
    exists text, s :: value == Some(Text(text)) && IsStripped(text, s) && IsTrimmed(s, error)
      && |error| > 5 && error[..5] == "net::" && All(error[5..], c => 'A' <= c <= 'Z' || '0' <= c <= '9' || c == '_')
  }

  predicate NumberOf(value: Option<Json>, number: real) {
    value == Some(Number(number)) && 0.0 <= number <= 9007199254740991.0
  }

  predicate TruthOf(value: Option<Json>, truth: bool) {
    value == Some(Bool(truth))
  }

  lemma VerbIsExact(platform: Platform, value: Option<Json>, verb: string)
    ensures Method(platform, value) == Some(verb) <==> VerbOf(platform, value, verb)
  {
    hide Trim, IsTrimmed;
    if value.Some? && value.value.Text? {
      var text := value.value.text;
      TrimIsTrimmed(text);
      forall s | IsTrimmed(text, s) ensures s == Trim(text) {
        TrimmedIsUnique(text, s, Trim(text));
      }
    }
  }

  lemma OriginIsExact(platform: Platform, value: Option<Json>, origin: string)
    ensures Origin(platform, value) == Some(origin) <==> OriginOf(platform, value, origin)
  {
  }

  lemma {:induction false} WithoutQueryIsPrefix(text: string)
    ensures |WithoutQuery(text)| <= |text| && WithoutQuery(text) == text[..|WithoutQuery(text)|]
    ensures |WithoutQuery(text)| < |text| ==> IsMark(text[|WithoutQuery(text)|])
  {
    if text != "" && !IsMark(text[0]) {
      WithoutQueryIsPrefix(text[1..]);
    }
  }

  lemma PathIsExact(value: Option<Json>, path: string)
    ensures PathTemplate(value) == Some(path) <==> PathOf(value, path)
  {
    if value.Some? && value.value.Text? {
      var text := value.value.text;
      WithoutQueryIsPrefix(text);
      hide WithoutQuery;
      var n := |WithoutQuery(text)|;
      assert forall i :: 0 <= i < n ==> text[i] == WithoutQuery(text)[i];
    }
  }

  lemma ClassIsExact(value: Option<Json>, c: Classification)
    ensures ClassificationOf(value) == Some(c) <==> ClassOf(value, c)
  {
    ClassificationIsKept(NoResponseHeaders);
    ClassificationIsKept(HeadersWithoutBodyCompletion);
    ClassificationIsKept(NetworkFailure);
    ClassificationIsKept(Completed);
  }

  lemma NameIsExact(value: Option<Json>, allowed: char -> bool, name: string)
    ensures Safe(value, allowed) == Some(name) <==> NameOf(value, allowed, name)
  {
  }

  lemma HexIsExact(platform: Platform, value: Option<Json>, length: nat, hex: string)
    ensures HexIdentifier(platform, value, length) == Some(hex) <==> HexOf(platform, value, length, hex)
  {
  }

  lemma ErrorIsExact(value: Option<Json>, error: string)
    ensures NetworkError(value) == Some(error) <==> ErrorOf(value, error)
  {
    hide Trim, IsTrimmed, StripAnsi, IsStripped;
    if value.Some? && value.value.Text? {
      var text := value.value.text;
      var stripped := StripAnsi(text);
      StripIsStripped(text);
      TrimIsTrimmed(stripped);
      forall s | IsStripped(text, s) ensures s == stripped {
        StrippedIsUnique(text, s, stripped);
      }
      forall s | IsTrimmed(stripped, s) ensures s == Trim(stripped) {
        TrimmedIsUnique(stripped, s, Trim(stripped));
      }
    }
  }

  lemma NumberIsExact(value: Option<Json>, number: real)
    ensures NonNegative(value) == Some(number) <==> NumberOf(value, number)
  {
  }

  // ----- Optional fields: what there is, and nothing exactly when there is nothing

  ghost predicate Named(value: Option<Json>, allowed: char -> bool, name: Option<string>) {
    forall x :: NameOf(value, allowed, x) <==> name == Some(x)
  }

  ghost predicate Hexed(platform: Platform, value: Option<Json>, length: nat, hex: Option<string>) {
    forall x :: HexOf(platform, value, length, x) <==> hex == Some(x)
  }

  ghost predicate Erred(value: Option<Json>, error: Option<string>) {
    forall x :: ErrorOf(value, x) <==> error == Some(x)
  }

  ghost predicate Numbered(value: Option<Json>, number: Option<real>) {
    forall x :: NumberOf(value, x) <==> number == Some(x)
  }

  ghost predicate Told(value: Option<Json>, truth: Option<bool>) {
    forall x :: TruthOf(value, x) <==> truth == Some(x)
  }

  lemma NamedIsExact(value: Option<Json>, allowed: char -> bool, name: Option<string>)
    ensures Named(value, allowed, name) <==> name == Safe(value, allowed)
  {
    hide Safe, NameOf;
    forall x ensures NameOf(value, allowed, x) <==> Safe(value, allowed) == Some(x) {
      NameIsExact(value, allowed, x);
    }
    if Safe(value, allowed).Some? { assert NameOf(value, allowed, Safe(value, allowed).value); }
    if Named(value, allowed, name) && name.Some? { assert NameOf(value, allowed, name.value); }
  }

  lemma HexedIsExact(platform: Platform, value: Option<Json>, length: nat, hex: Option<string>)
    ensures Hexed(platform, value, length, hex) <==> hex == HexIdentifier(platform, value, length)
  {
    hide HexIdentifier, HexOf;
    var it := HexIdentifier(platform, value, length);
    forall x ensures HexOf(platform, value, length, x) <==> it == Some(x) {
      HexIsExact(platform, value, length, x);
    }
    if it.Some? { assert HexOf(platform, value, length, it.value); }
    if Hexed(platform, value, length, hex) && hex.Some? { assert HexOf(platform, value, length, hex.value); }
  }

  lemma ErredIsExact(value: Option<Json>, error: Option<string>)
    ensures Erred(value, error) <==> error == NetworkError(value)
  {
    hide NetworkError, ErrorOf;
    forall x ensures ErrorOf(value, x) <==> NetworkError(value) == Some(x) {
      ErrorIsExact(value, x);
    }
    if NetworkError(value).Some? { assert ErrorOf(value, NetworkError(value).value); }
    if Erred(value, error) && error.Some? { assert ErrorOf(value, error.value); }
  }

  lemma NumberedIsExact(value: Option<Json>, number: Option<real>)
    ensures Numbered(value, number) <==> number == NonNegative(value)
  {
    hide NonNegative, NumberOf;
    forall x ensures NumberOf(value, x) <==> NonNegative(value) == Some(x) {
      NumberIsExact(value, x);
    }
    if NonNegative(value).Some? { assert NumberOf(value, NonNegative(value).value); }
    if Numbered(value, number) && number.Some? { assert NumberOf(value, number.value); }
  }

  lemma ToldIsExact(value: Option<Json>, truth: Option<bool>)
    ensures Told(value, truth) <==> truth == AsBool(value)
  {
    if AsBool(value).Some? { assert TruthOf(value, AsBool(value).value); }
    if Told(value, truth) && truth.Some? { assert TruthOf(value, truth.value); }
  }

  // ----- Objects

  /** The members of an object; an array has none of the names looked for. */
  predicate HasMembers(value: Option<Json>, members: map<Key, Json>) {
    value == Some(Object(members)) || (value.Some? && value.value.Array? && members == map[])
  }

  ghost predicate UtcOf(platform: Platform, value: Option<Json>, utc: string) {
    exists text, ms :: value == Some(Text(text)) && text != "" && platform.parseDate(text) == Some(ms)
      && utc == platform.isoDate(ms)
  }

  ghost predicate TimestampOf(platform: Platform, value: Option<Json>, t: Timestamp) {
    exists members :: HasMembers(value, members)
      && UtcOf(platform, Get(members, UtcKey), t.utc)
      && Numbered(Get(members, MonotonicKey), t.monotonicMilliseconds)
  }

  ghost predicate Timed(platform: Platform, value: Option<Json>, t: Option<Timestamp>) {
    forall x :: TimestampOf(platform, value, x) <==> t == Some(x)
  }

  ghost predicate EventOf(platform: Platform, value: Option<Json>, e: Event) {
    exists members :: HasMembers(value, members)
      && Timed(platform, Get(members, CdpKey), e.cdp) && Timed(platform, Get(members, PlaywrightKey), e.playwright)
      && (e.cdp.Some? || e.playwright.Some?)
  }

  ghost predicate Happened(platform: Platform, value: Option<Json>, e: Option<Event>) {
    forall x :: EventOf(platform, value, x) <==> e == Some(x)
  }

  ghost predicate FailureOf(platform: Platform, value: Option<Json>, f: FailureEvent) {
    exists members :: HasMembers(value, members)
      && Timed(platform, Get(members, CdpKey), f.cdp) && Timed(platform, Get(members, PlaywrightKey), f.playwright)
      && Erred(Get(members, ErrorTextKey), f.errorText) && Told(Get(members, CanceledKey), f.canceled)
      && Named(Get(members, BlockedReasonKey), IsIdentifierChar, f.blockedReason)
      && Named(Get(members, CorsErrorStatusKey), IsIdentifierChar, f.corsErrorStatus)
      && f != FailureEvent(None, None, None, None, None, None)
  }

  ghost predicate Failed(platform: Platform, value: Option<Json>, f: Option<FailureEvent>) {
    forall x :: FailureOf(platform, value, x) <==> f == Some(x)
  }

  ghost predicate EndpointOf(value: Option<Json>, e: Endpoint) {
    exists members :: HasMembers(value, members)
      && Named(Get(members, IpAddressKey), IsAddressChar, e.ipAddress) && Numbered(Get(members, PortKey), e.port)
      && e != Endpoint(None, None)
  }

  ghost predicate Reached(value: Option<Json>, e: Option<Endpoint>) {
    forall x :: EndpointOf(value, x) <==> e == Some(x)
  }

  ghost predicate ConnectionOf(value: Option<Json>, c: Connection) {
    exists members :: HasMembers(value, members)
      && Numbered(Get(members, IdKey), c.id) && Told(Get(members, ReusedKey), c.reused)
      && Reached(Get(members, RemoteEndpointKey), c.remoteEndpoint) && c != Connection(None, None, None)
  }

  ghost predicate Connected(value: Option<Json>, c: Option<Connection>) {
    forall x :: ConnectionOf(value, x) <==> c == Some(x)
  }

  ghost predicate BytesOf(value: Option<Json>, b: EncodedBytes) {
    exists members :: HasMembers(value, members)
      && Numbered(Get(members, DataKey), b.data) && Numbered(Get(members, ResponseHeadersKey), b.responseHeaders)
      && Numbered(Get(members, TotalKey), b.total) && b != EncodedBytes(None, None, None)
  }

  ghost predicate Measured(value: Option<Json>, b: Option<EncodedBytes>) {
    forall x :: BytesOf(value, x) <==> b == Some(x)
  }

  lemma MembersAreRecord(value: Option<Json>, members: map<Key, Json>)
    ensures HasMembers(value, members) <==> AsRecord(value) == Some(members)
  {
  }

  lemma TimestampIsExact(platform: Platform, value: Option<Json>, t: Timestamp)
    ensures SanitizeTimestamp(platform, value) == Some(t) <==> TimestampOf(platform, value, t)
  {
    hide Numbered, NonNegative, Get;
    forall members ensures HasMembers(value, members) <==> AsRecord(value) == Some(members) {
      MembersAreRecord(value, members);
    }
    if AsRecord(value).Some? {
      var members := AsRecord(value).value;
      NumberedIsExact(Get(members, MonotonicKey), t.monotonicMilliseconds);
      assert HasMembers(value, members);
    }
  }

  lemma TimedIsExact(platform: Platform, value: Option<Json>, t: Option<Timestamp>)
    ensures Timed(platform, value, t) <==> t == SanitizeTimestamp(platform, value)
  {
    hide SanitizeTimestamp, TimestampOf;
    var it := SanitizeTimestamp(platform, value);
    forall x ensures TimestampOf(platform, value, x) <==> it == Some(x) {
      TimestampIsExact(platform, value, x);
    }
    if it.Some? { assert TimestampOf(platform, value, it.value); }
    if Timed(platform, value, t) && t.Some? { assert TimestampOf(platform, value, t.value); }
  }

  lemma EventIsExact(platform: Platform, value: Option<Json>, e: Event)
    ensures SanitizeEvent(platform, value) == Some(e) <==> EventOf(platform, value, e)
  {
    hide Timed, SanitizeTimestamp, Get;
    forall members ensures HasMembers(value, members) <==> AsRecord(value) == Some(members) {
      MembersAreRecord(value, members);
    }
    if AsRecord(value).Some? {
      var members := AsRecord(value).value;
      TimedIsExact(platform, Get(members, CdpKey), e.cdp);
      TimedIsExact(platform, Get(members, PlaywrightKey), e.playwright);
      assert HasMembers(value, members);
    }
  }

  lemma HappenedIsExact(platform: Platform, value: Option<Json>, e: Option<Event>)
    ensures Happened(platform, value, e) <==> e == SanitizeEvent(platform, value)
  {
    hide SanitizeEvent, EventOf;
    var it := SanitizeEvent(platform, value);
    forall x ensures EventOf(platform, value, x) <==> it == Some(x) {
      EventIsExact(platform, value, x);
    }
    if it.Some? { assert EventOf(platform, value, it.value); }
    if Happened(platform, value, e) && e.Some? { assert EventOf(platform, value, e.value); }
  }

  lemma FailureIsExact(platform: Platform, value: Option<Json>, f: FailureEvent)
    ensures SanitizeFailureEvent(platform, value) == Some(f) <==> FailureOf(platform, value, f)
  {
    hide Timed, Erred, Told, Named, SanitizeTimestamp, NetworkError, AsBool, Safe, Get;
    forall members ensures HasMembers(value, members) <==> AsRecord(value) == Some(members) {
      MembersAreRecord(value, members);
    }
    if AsRecord(value).Some? {
      var members := AsRecord(value).value;
      TimedIsExact(platform, Get(members, CdpKey), f.cdp);
      TimedIsExact(platform, Get(members, PlaywrightKey), f.playwright);
      ErredIsExact(Get(members, ErrorTextKey), f.errorText);
      ToldIsExact(Get(members, CanceledKey), f.canceled);
      NamedIsExact(Get(members, BlockedReasonKey), IsIdentifierChar, f.blockedReason);
      NamedIsExact(Get(members, CorsErrorStatusKey), IsIdentifierChar, f.corsErrorStatus);
      assert HasMembers(value, members);
    }
  }

  lemma FailedIsExact(platform: Platform, value: Option<Json>, f: Option<FailureEvent>)
    ensures Failed(platform, value, f) <==> f == SanitizeFailureEvent(platform, value)
  {
    hide SanitizeFailureEvent, FailureOf;
    var it := SanitizeFailureEvent(platform, value);
    forall x ensures FailureOf(platform, value, x) <==> it == Some(x) {
      FailureIsExact(platform, value, x);
    }
    if it.Some? { assert FailureOf(platform, value, it.value); }
    if Failed(platform, value, f) && f.Some? { assert FailureOf(platform, value, f.value); }
  }

  lemma EndpointIsExact(value: Option<Json>, e: Endpoint)
    ensures SanitizeEndpoint(value) == Some(e) <==> EndpointOf(value, e)
  {
    hide Named, Numbered, Safe, NonNegative, Get;
    forall members ensures HasMembers(value, members) <==> AsRecord(value) == Some(members) {
      MembersAreRecord(value, members);
    }
    if AsRecord(value).Some? {
      var members := AsRecord(value).value;
      NamedIsExact(Get(members, IpAddressKey), IsAddressChar, e.ipAddress);
      NumberedIsExact(Get(members, PortKey), e.port);
      assert HasMembers(value, members);
    }
  }

  lemma ReachedIsExact(value: Option<Json>, e: Option<Endpoint>)
    ensures Reached(value, e) <==> e == SanitizeEndpoint(value)
  {
    hide SanitizeEndpoint, EndpointOf;
    var it := SanitizeEndpoint(value);
    forall x ensures EndpointOf(value, x) <==> it == Some(x) {
      EndpointIsExact(value, x);
    }
    if it.Some? { assert EndpointOf(value, it.value); }
    if Reached(value, e) && e.Some? { assert EndpointOf(value, e.value); }
  }

  lemma ConnectionIsExact(value: Option<Json>, c: Connection)
    ensures SanitizeConnection(value) == Some(c) <==> ConnectionOf(value, c)
  {
    hide Numbered, Told, Reached, NonNegative, AsBool, SanitizeEndpoint, Get;
    forall members ensures HasMembers(value, members) <==> AsRecord(value) == Some(members) {
      MembersAreRecord(value, members);
    }
    if AsRecord(value).Some? {
      var members := AsRecord(value).value;
      NumberedIsExact(Get(members, IdKey), c.id);
      ToldIsExact(Get(members, ReusedKey), c.reused);
      ReachedIsExact(Get(members, RemoteEndpointKey), c.remoteEndpoint);
      assert HasMembers(value, members);
    }
  }

  lemma ConnectedIsExact(value: Option<Json>, c: Option<Connection>)
    ensures Connected(value, c) <==> c == SanitizeConnection(value)
  {
    hide SanitizeConnection, ConnectionOf;
    var it := SanitizeConnection(value);
    forall x ensures ConnectionOf(value, x) <==> it == Some(x) {
      ConnectionIsExact(value, x);
    }
    if it.Some? { assert ConnectionOf(value, it.value); }
    if Connected(value, c) && c.Some? { assert ConnectionOf(value, c.value); }
  }

  lemma BytesAreExact(value: Option<Json>, b: EncodedBytes)
    ensures SanitizeEncodedBytes(value) == Some(b) <==> BytesOf(value, b)
  {
    hide Numbered, NonNegative, Get;
    forall members ensures HasMembers(value, members) <==> AsRecord(value) == Some(members) {
      MembersAreRecord(value, members);
    }
    if AsRecord(value).Some? {
      var members := AsRecord(value).value;
      NumberedIsExact(Get(members, DataKey), b.data);
      NumberedIsExact(Get(members, ResponseHeadersKey), b.responseHeaders);
      NumberedIsExact(Get(members, TotalKey), b.total);
      assert HasMembers(value, members);
    }
  }

  lemma MeasuredIsExact(value: Option<Json>, b: Option<EncodedBytes>)
    ensures Measured(value, b) <==> b == SanitizeEncodedBytes(value)
  {
    hide SanitizeEncodedBytes, BytesOf;
    var it := SanitizeEncodedBytes(value);
    forall x ensures BytesOf(value, x) <==> it == Some(x) {
      BytesAreExact(value, x);
    }
    if it.Some? { assert BytesOf(value, it.value); }
    if Measured(value, b) && b.Some? { assert BytesOf(value, b.value); }
  }

  // ----- Records

  ghost predicate RequiredOf(platform: Platform, members: map<Key, Json>, r: Record) {
    && VerbOf(platform, Get(members, MethodKey), r.verb)
    && OriginOf(platform, Get(members, OriginKey), r.origin) && r.origin != ""
    && PathOf(Get(members, PathTemplateKey), r.pathTemplate)
    && ClassOf(Get(members, ClassificationKey), r.classification)
    && EventOf(platform, Get(members, RequestStartedKey), r.requestStarted)
  }

  ghost predicate OptionalOf(platform: Platform, members: map<Key, Json>, r: Record) {
    && Happened(platform, Get(members, ResponseReceivedKey), r.responseReceived)
    && Happened(platform, Get(members, LoadingFinishedKey), r.loadingFinished)
    && Failed(platform, Get(members, LoadingFailedKey), r.loadingFailed)
    && Named(Get(members, PlaywrightRequestKeyKey), IsIdentifierChar, r.playwrightRequestKey)
    && Named(Get(members, CdpRequestIdKey), IsIdentifierChar, r.cdpRequestId)
    && Named(Get(members, LoaderIdKey), IsIdentifierChar, r.loaderId)
    && Named(Get(members, ApiGatewayRequestIdKey), IsIdentifierChar, r.apiGatewayRequestId)
    && Hexed(platform, Get(members, TraceIdKey), 32, r.traceId)
    && Hexed(platform, Get(members, SpanIdKey), 16, r.spanId)
    && Connected(Get(members, ConnectionKey), r.connection)
    && Measured(Get(members, EncodedBytesKey), r.encodedBytes)
    && Numbered(Get(members, HttpStatusKey), r.httpStatus)
    && Named(Get(members, ProtocolKey), IsProtocolChar, r.protocol)
  }

  /** r is what the value tells: every field from its own member. */
  ghost predicate RecordOf(platform: Platform, value: Json, r: Record) {
    exists members :: HasMembers(Some(value), members) && RequiredOf(platform, members, r) && OptionalOf(platform, members, r)
  }

  lemma RequiredIsExact(platform: Platform, members: map<Key, Json>, r: Record)
    ensures RequiredOf(platform, members, r) <==>
      && Method(platform, Get(members, MethodKey)) == Some(r.verb)
      && Origin(platform, Get(members, OriginKey)) == Some(r.origin) && r.origin != ""
      && PathTemplate(Get(members, PathTemplateKey)) == Some(r.pathTemplate)
      && ClassificationOf(Get(members, ClassificationKey)) == Some(r.classification)
      && SanitizeEvent(platform, Get(members, RequestStartedKey)) == Some(r.requestStarted)
  {
    hide Method, VerbOf, Origin, OriginOf, PathTemplate, PathOf, ClassificationOf, ClassOf, SanitizeEvent, EventOf, Get;
    VerbIsExact(platform, Get(members, MethodKey), r.verb);
    OriginIsExact(platform, Get(members, OriginKey), r.origin);
    PathIsExact(Get(members, PathTemplateKey), r.pathTemplate);
    ClassIsExact(Get(members, ClassificationKey), r.classification);
    EventIsExact(platform, Get(members, RequestStartedKey), r.requestStarted);
  }

  lemma OptionalIsExact(platform: Platform, members: map<Key, Json>, r: Record)
    ensures OptionalOf(platform, members, r) <==>
      && r.responseReceived == SanitizeEvent(platform, Get(members, ResponseReceivedKey))
      && r.loadingFinished == SanitizeEvent(platform, Get(members, LoadingFinishedKey))
      && r.loadingFailed == SanitizeFailureEvent(platform, Get(members, LoadingFailedKey))
      && r.playwrightRequestKey == Identifier(Get(members, PlaywrightRequestKeyKey))
      && r.cdpRequestId == Identifier(Get(members, CdpRequestIdKey))
      && r.loaderId == Identifier(Get(members, LoaderIdKey))
      && r.apiGatewayRequestId == Identifier(Get(members, ApiGatewayRequestIdKey))
      && r.traceId == HexIdentifier(platform, Get(members, TraceIdKey), 32)
      && r.spanId == HexIdentifier(platform, Get(members, SpanIdKey), 16)
      && r.connection == SanitizeConnection(Get(members, ConnectionKey))
      && r.encodedBytes == SanitizeEncodedBytes(Get(members, EncodedBytesKey))
      && r.httpStatus == NonNegative(Get(members, HttpStatusKey))
      && r.protocol == Protocol(Get(members, ProtocolKey))
  {
    hide Happened, Failed, Named, Hexed, Connected, Measured, Numbered, SanitizeEvent, SanitizeFailureEvent, Safe,
      HexIdentifier, SanitizeConnection, SanitizeEncodedBytes, NonNegative, Get;
    HappenedIsExact(platform, Get(members, ResponseReceivedKey), r.responseReceived);
    HappenedIsExact(platform, Get(members, LoadingFinishedKey), r.loadingFinished);
    FailedIsExact(platform, Get(members, LoadingFailedKey), r.loadingFailed);
    NamedIsExact(Get(members, PlaywrightRequestKeyKey), IsIdentifierChar, r.playwrightRequestKey);
    NamedIsExact(Get(members, CdpRequestIdKey), IsIdentifierChar, r.cdpRequestId);
    NamedIsExact(Get(members, LoaderIdKey), IsIdentifierChar, r.loaderId);
    NamedIsExact(Get(members, ApiGatewayRequestIdKey), IsIdentifierChar, r.apiGatewayRequestId);
    HexedIsExact(platform, Get(members, TraceIdKey), 32, r.traceId);
    HexedIsExact(platform, Get(members, SpanIdKey), 16, r.spanId);
    ConnectedIsExact(Get(members, ConnectionKey), r.connection);
    MeasuredIsExact(Get(members, EncodedBytesKey), r.encodedBytes);
    NumberedIsExact(Get(members, HttpStatusKey), r.httpStatus);
    NamedIsExact(Get(members, ProtocolKey), IsProtocolChar, r.protocol);
  }

  /** Sanitizing gives a record exactly when it is what the value tells. */
  lemma RecordIsExact(platform: Platform, value: Json, r: Record)
    ensures SanitizeRecord(platform, value) == Some(r) <==> RecordOf(platform, value, r)
  {
    hide RequiredOf, OptionalOf, Method, Origin, PathTemplate, ClassificationOf, SanitizeEvent, SanitizeFailureEvent,
      Safe, HexIdentifier, SanitizeConnection, SanitizeEncodedBytes, NonNegative, Get;
    forall members ensures HasMembers(Some(value), members) <==> AsRecord(Some(value)) == Some(members) {
      MembersAreRecord(Some(value), members);
    }
    if AsRecord(Some(value)).Some? {
      var members := AsRecord(Some(value)).value;
      RequiredIsExact(platform, members, r);
      OptionalIsExact(platform, members, r);
      assert HasMembers(Some(value), members);
    }
  }

  // ----- What is encoded and what is parsed

  /** Every record encoded is what one of the values tells. */
  lemma EncodedIsTold(platform: Platform, printer: Printer, values: seq<Json>, truncated: bool, r: Record) returns (k: nat)
    requires r in EncodedAttachment(platform, printer, values, truncated).records
    ensures k < |values| && RecordOf(platform, values[k], r)
  {
    hide SanitizeRecord, RecordOf, Packed, Prioritized, Sanitized, Of;
    PackedAreSanitized(platform, printer, values, r);
    k := SanitizedFrom(platform, values, r);
    RecordIsExact(platform, values[k], r);
  }

  lemma PackedAreSanitized(platform: Platform, printer: Printer, values: seq<Json>, r: Record)
    requires r in Packed(printer, Prioritized(Sanitized(platform, values)))
    ensures r in Sanitized(platform, values)
  {
    hide Sanitized;
    var sanitized := Sanitized(platform, values);
    var prioritized := Prioritized(sanitized);
    PicksArePacked(printer, prioritized);
    var i :| 0 <= i < |Packed(printer, prioritized)| && Packed(printer, prioritized)[i] == r;
    assert prioritized[Picks(printer, prioritized)[i]] == r;
    PriorityIsStable(sanitized, r.classification);
    ClassMembers(prioritized, r);
    OfIsWithin(sanitized, r.classification, r);
  }

  lemma {:induction false} SanitizedFrom(platform: Platform, values: seq<Json>, r: Record) returns (k: nat)
    requires r in Sanitized(platform, values)
    ensures k < |values| && SanitizeRecord(platform, values[k]) == Some(r)
  {
    hide SanitizeRecord;
    k := |values| - 1;
    if SanitizeRecord(platform, values[k]) != Some(r) {
      k := SanitizedFrom(platform, values[..k], r);
    }
  }

  /** Every record that is parsed is what one of the first 100 items of the parsed value tells. */
  lemma ParsedIsTold(platform: Platform, printer: Printer, content: string, r: Record) returns (members: map<Key, Json>, k: nat)
    requires Parse(platform, printer, content).Some? && r in Parse(platform, printer, content).value.records
    ensures printer.parse(content).Some? && HasMembers(printer.parse(content), members)
    ensures RecordsKey in members && members[RecordsKey].Array? && k < |members[RecordsKey].items| && k < 100
    ensures RecordOf(platform, members[RecordsKey].items[k], r)
  {
    hide SanitizeRecord, RecordOf, Sanitized;
    members := AsRecord(printer.parse(content)).value;
    MembersAreRecord(printer.parse(content), members);
    var items := members[RecordsKey].items;
    var considered := if |items| > MAXIMUM_RECORDS then items[..MAXIMUM_RECORDS] else items;
    k := SanitizedFrom(platform, considered, r);
    RecordIsExact(platform, considered[k], r);
  }

  ghost predicate IsTold(platform: Platform, value: Json) {
    exists r :: RecordOf(platform, value, r)
  }

  /** Every value that tells a record gives it, in order, and no other gives any. */
  ghost predicate Gives(platform: Platform, values: seq<Json>, records: seq<Record>, at: seq<nat>) {
    && |at| == |records|
    && (forall i {:trigger at[i]} :: 0 <= i < |at| ==> at[i] < |values| && RecordOf(platform, values[at[i]], records[i]))
    && (forall i, j :: 0 <= i < j < |at| ==> at[i] < at[j])
    && (forall k: nat {:trigger IsTold(platform, values[k])} :: k < |values| && IsTold(platform, values[k]) ==> k in at)
  }

  lemma {:induction false} SanitizedIsGiven(platform: Platform, values: seq<Json>) returns (at: seq<nat>)
    ensures Gives(platform, values, Sanitized(platform, values), at)
  {
    hide SanitizeRecord, RecordOf, IsTold;
    at := [];
    if values != [] {
      var n := |values| - 1;
      var before := SanitizedIsGiven(platform, values[..n]);
      ToldIsSanitized(platform, values[n]);
      var last := SanitizeRecord(platform, values[n]);
      at := if last.Some? then before + [n] else before;
      hide Gives, Sanitized;
      GivesStep(platform, values, Sanitized(platform, values[..n]), before, last);
      assert Sanitized(platform, values) ==
        Sanitized(platform, values[..n]) + if last.Some? then [last.value] else [] by { SanitizedStep(platform, values); }
    }
  }

  lemma SanitizedStep(platform: Platform, values: seq<Json>)
    requires values != []
    ensures
      var last := SanitizeRecord(platform, values[|values| - 1]);
      Sanitized(platform, values) ==
        Sanitized(platform, values[..|values| - 1]) + if last.Some? then [last.value] else []
  {
    hide SanitizeRecord;
  }

  lemma ToldIsSanitized(platform: Platform, value: Json)
    ensures IsTold(platform, value) <==> SanitizeRecord(platform, value).Some?
    ensures SanitizeRecord(platform, value).Some? ==> RecordOf(platform, value, SanitizeRecord(platform, value).value)
  {
    hide SanitizeRecord, RecordOf;
    forall r ensures SanitizeRecord(platform, value) == Some(r) <==> RecordOf(platform, value, r) {
      RecordIsExact(platform, value, r);
    }
    if SanitizeRecord(platform, value).Some? {
      assert RecordOf(platform, value, SanitizeRecord(platform, value).value);
    }
  }

  lemma GivesStep(platform: Platform, values: seq<Json>, records: seq<Record>, at: seq<nat>, last: Option<Record>)
    requires values != [] && Gives(platform, values[..|values| - 1], records, at)
    requires last.Some? <==> IsTold(platform, values[|values| - 1])
    requires last.Some? ==> RecordOf(platform, values[|values| - 1], last.value)
    ensures Gives(platform, values, records + (if last.Some? then [last.value] else []),
                  if last.Some? then at + [|values| - 1] else at)
  {
    hide RecordOf, IsTold;
    var n := |values| - 1;
    var more := if last.Some? then at + [n] else at;
    var all := records + if last.Some? then [last.value] else [];
    forall i | 0 <= i < |at| ensures more[i] < n && RecordOf(platform, values[more[i]], all[i]) {
      assert values[..n][at[i]] == values[at[i]];
    }
    forall k: nat | k < |values| && IsTold(platform, values[k]) ensures k in more {
      if k < n {
        assert IsTold(platform, values[..n][k]);
      } else {
        assert more[|at|] == n;
      }
    }
  }

  /** Fewer records than values exactly when some value tells none. */
  lemma {:induction false} LessIsRefused(platform: Platform, values: seq<Json>)
    ensures |Sanitized(platform, values)| < |values| <==>
      exists k: nat :: k < |values| && !IsTold(platform, values[k])
  {
    hide SanitizeRecord, IsTold;
    if values != [] {
      var n := |values| - 1;
      LessIsRefused(platform, values[..n]);
      ToldIsSanitized(platform, values[n]);
      SanitizedStep(platform, values);
      hide Sanitized;
      assert forall k :: 0 <= k < n ==> values[..n][k] == values[k];
    }
  }

  /**
   The flag of an encoded attachment is set exactly when that was asked for, or a value tells no record, or the
   packing left a record out.
   */
  lemma FlagTellsOmissions(platform: Platform, printer: Printer, values: seq<Json>, truncated: bool)
    ensures
      var a := EncodedAttachment(platform, printer, values, truncated);
      a.truncated <==>
        || truncated
        || (exists k: nat :: k < |values| && !IsTold(platform, values[k]))
        || |a.records| < |Sanitized(platform, values)|
  {
    hide IsTold, Sanitized, Prioritized, Packed;
    LessIsRefused(platform, values);
    var sanitized := Sanitized(platform, values);
    PriorityIsStable(sanitized, Completed);
  }

  /** What makes a content an attachment of this version, with these items and this flag. */
  predicate IsAttachment(printer: Printer, content: string, items: seq<Json>, flag: bool) {
    && |content| <= 65_536 && printer.parse(content).Some? && printer.parse(content).value.Object?
    && var members := printer.parse(content).value.members;
       && SchemaVersionKey in members && members[SchemaVersionKey] == Number(2.0)
       && RecordsKey in members && members[RecordsKey] == Array(items)
       && TruncatedKey in members && members[TruncatedKey] == Bool(flag)
  }

  /**
   Parsing accepts exactly the attachments that are empty or tell a record in their first 100 items. It gives the
   records told there, in order, and the flag unless anything is missing from them.
   */
  lemma ParsingIsExact(platform: Platform, printer: Printer, content: string, items: seq<Json>, flag: bool)
      returns (at: seq<nat>)
    requires IsAttachment(printer, content, items, flag)
    ensures
      var considered := if |items| > 100 then items[..100] else items;
      var r := Parse(platform, printer, content);
      && (r.Some? <==> items == [] || exists k: nat :: k < |considered| && IsTold(platform, considered[k]))
      && (r.Some? ==>
            && Gives(platform, considered, r.value.records, at)
            && (r.value.truncated <==>
                  flag || |items| > 100 || exists k: nat :: k < |considered| && !IsTold(platform, considered[k])))
  {
    hide IsTold, Sanitized, SanitizeRecord, Gives;
    var considered := if |items| > 100 then items[..100] else items;
    at := SanitizedIsGiven(platform, considered);
    LessIsRefused(platform, considered);
    SomethingIsGiven(platform, considered, Sanitized(platform, considered), at);
  }

  lemma SomethingIsGiven(platform: Platform, values: seq<Json>, records: seq<Record>, at: seq<nat>)
    requires Gives(platform, values, records, at)
    ensures records == [] <==> forall k: nat :: k < |values| ==> !IsTold(platform, values[k])
  {
    hide RecordOf;
    if records != [] {
      assert at[0] < |values| && RecordOf(platform, values[at[0]], records[0]);
      assert IsTold(platform, values[at[0]]);
    }
  }

  /** Nothing else is parsed. */
  lemma OnlyAttachmentsParse(platform: Platform, printer: Printer, content: string)
    requires Parse(platform, printer, content).Some?
    ensures exists items, flag :: IsAttachment(printer, content, items, flag)
  {
    hide Sanitized, SanitizeRecord;
    var members := AsRecord(printer.parse(content)).value;
    assert IsAttachment(printer, content, members[RecordsKey].items, members[TruncatedKey].truth);
  }

  // ----- Queries do not come through

  /** The two texts are the same up to and including their first question mark or hash, if they have one. */
  ghost predicate SamePaths(a: string, b: string) {
    exists k: nat :: k <= |a| && k <= |b| && a[..k] == b[..k] && (forall i :: 0 <= i < k ==> !IsMark(a[i]))
      && (k < |a| ==> IsMark(a[k])) && (k < |b| ==> IsMark(b[k]))
  }

  lemma SamePathsRead(a: string, b: string)
    requires SamePaths(a, b)
    ensures PathTemplate(Some(Text(a))) == PathTemplate(Some(Text(b)))
  {
    var k: nat :| k <= |a| && k <= |b| && a[..k] == b[..k] && (forall i :: 0 <= i < k ==> !IsMark(a[i]))
      && (k < |a| ==> IsMark(a[k])) && (k < |b| ==> IsMark(b[k]));
    assert forall i :: 0 <= i < k ==> b[i] == a[..k][i];
    QueryIsCut(a, k);
    QueryIsCut(b, k);
  }

  lemma {:induction false} QueryIsCut(text: string, k: nat)
    requires k <= |text| && (k < |text| ==> IsMark(text[k])) && forall i :: 0 <= i < k ==> !IsMark(text[i])
    ensures WithoutQuery(text) == text[..k]
  {
    if k > 0 {
      QueryIsCut(text[1..], k - 1);
      assert text[..k] == [text[0]] + text[1..][..k - 1];
    }
  }

  /** The values differ at most in what their paths have behind the first question mark or hash. */
  ghost predicate SameButQueries(v: Json, w: Json) {
    || v == w
    || (&& v.Object? && w.Object? && v.members.Keys == w.members.Keys
        && (forall key :: key in v.members && key != PathTemplateKey ==> v.members[key] == w.members[key])
        && PathTemplateKey in v.members && v.members[PathTemplateKey].Text? && w.members[PathTemplateKey].Text?
        && SamePaths(v.members[PathTemplateKey].text, w.members[PathTemplateKey].text))
  }

  lemma QueryIsDropped(platform: Platform, v: Json, w: Json)
    requires SameButQueries(v, w)
    ensures SanitizeRecord(platform, v) == SanitizeRecord(platform, w)
  {
    hide SamePaths, PathTemplate, SanitizeRecord;
    if v != w {
      SamePathsRead(v.members[PathTemplateKey].text, w.members[PathTemplateKey].text);
      OtherMembersAgree(v.members, w.members);
      MembersDecide(platform, v.members, w.members);
    }
  }

  lemma MembersDecide(platform: Platform, v: map<Key, Json>, w: map<Key, Json>)
    requires PathTemplate(Get(v, PathTemplateKey)) == PathTemplate(Get(w, PathTemplateKey))
    requires forall key {:trigger Get(v, key)} :: key != PathTemplateKey ==> Get(v, key) == Get(w, key)
    ensures SanitizeRecord(platform, Object(v)) == SanitizeRecord(platform, Object(w))
  {
    hide Method, Origin, PathTemplate, ClassificationOf, SanitizeEvent, SanitizeFailureEvent, Safe, HexIdentifier,
      SanitizeConnection, SanitizeEncodedBytes, NonNegative, Get;
  }

  lemma OtherMembersAgree(v: map<Key, Json>, w: map<Key, Json>)
    requires v.Keys == w.Keys && forall key :: key in v && key != PathTemplateKey ==> v[key] == w[key]
    ensures forall key {:trigger Get(v, key)} :: key != PathTemplateKey ==> Get(v, key) == Get(w, key)
  {
  }

  ghost predicate AllSameButQueries(v: seq<Json>, w: seq<Json>) {
    |v| == |w| && forall i :: 0 <= i < |v| ==> SameButQueries(v[i], w[i])
  }

  lemma {:induction false} SanitizedAlike(platform: Platform, v: seq<Json>, w: seq<Json>)
    requires AllSameButQueries(v, w)
    ensures Sanitized(platform, v) == Sanitized(platform, w)
  {
    hide SameButQueries, SanitizeRecord;
    if v != [] {
      SanitizedAlike(platform, v[..|v| - 1], w[..|w| - 1]);
      QueryIsDropped(platform, v[|v| - 1], w[|w| - 1]);
    }
  }

  /** The attachment is the same whatever queries the paths carry. */
  lemma NoQueryIsEncoded(platform: Platform, printer: Printer, v: seq<Json>, w: seq<Json>, truncated: bool)
    requires AllSameButQueries(v, w)
    ensures EncodedAttachment(platform, printer, v, truncated) == EncodedAttachment(platform, printer, w, truncated)
  {
    hide Sanitized, Prioritized, Packed, AllSameButQueries;
    SanitizedAlike(platform, v, w);
    SameCounts(v, w);
  }

  lemma SameCounts(v: seq<Json>, w: seq<Json>)
    requires AllSameButQueries(v, w)
    ensures |v| == |w|
  {
  }

  /** So is what is parsed, from any two contents whose values differ in such queries only. */
  lemma NoQueryIsParsed(platform: Platform, printer: Printer, a: string, b: string, v: map<Key, Json>, w: map<Key, Json>)
    requires |a| <= MAXIMUM_BYTES && |b| <= MAXIMUM_BYTES
    requires printer.parse(a) == Some(Object(v)) && printer.parse(b) == Some(Object(w))
    requires v.Keys == w.Keys && forall key :: key in v && key != RecordsKey ==> v[key] == w[key]
    requires RecordsKey in v && v[RecordsKey].Array? && w[RecordsKey].Array?
    requires AllSameButQueries(v[RecordsKey].items, w[RecordsKey].items)
    ensures Parse(platform, printer, a) == Parse(platform, printer, b)
  {
    hide SanitizeRecord, Sanitized;
    var x, y := v[RecordsKey].items, w[RecordsKey].items;
    var n := if |x| > MAXIMUM_RECORDS then MAXIMUM_RECORDS else |x|;
    assert x[..|x|] == x && y[..|y|] == y;
    SanitizedAlike(platform, x[..n], y[..n]);
  }
}
