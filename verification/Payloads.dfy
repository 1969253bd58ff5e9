/** The reference for payload parsing: the states that can be sent, and how they are written down. */
module Payloads {
  import opened Wrappers
  import opened Json
  import opened Models
  import Urls

  // ---------- exactly the states that parsing can give ----------

  predicate StrictDestination(d: Destination, lib: Library) {
    && IsUuid(d.destinationId) && Urls.Lower(d.destinationId) == d.destinationId
    && d.platform in PLATFORMS
    && Urls.ValidateIngestUrl(d.ingestUrl, lib.netlocOk) == Ok(d.ingestUrl)
    && Urls.ValidateStreamKey(d.streamKey) == Ok(d.streamKey)
    && '?' !in d.ingestUrl
  }

  predicate StrictStream(s: Stream, lib: Library) {
    && IsToken(s.streamId, 8, 128) && IsToken(s.publishCredential, 24, 192)
    && Distinct(DestinationIds(s.destinations))
    && forall d | d in s.destinations :: StrictDestination(d, lib)
  }

  predicate StrictState(state: DesiredState, relayId: string, lib: Library) {
    && (state.schemaVersion == 1 || state.schemaVersion == 2) && state.relayId == relayId
    && state.generation >= 0 && state.issuedAt < state.expiresAt
    && Distinct(StreamIds(state.streams))
    && (forall s | s in state.streams :: StrictStream(s, lib))
    && GoodLimits(state)
  }

  // ---------- writing them down ----------

  function DestinationText(d: Destination): Json {
    Obj(map["destination_id" := Str(d.destinationId), "platform" := Str(d.platform), "enabled" := Bool(d.enabled),
            "ingest_url" := Str(d.ingestUrl), "stream_key" := Str(d.streamKey)])
  }

  function DestinationTexts(ds: seq<Destination>): seq<Json> {
    if ds == [] then [] else [DestinationText(ds[0])] + DestinationTexts(ds[1..])
  }

  function StreamText(s: Stream): Json {
    Obj(map["stream_id" := Str(s.streamId), "publish_credential" := Str(s.publishCredential),
            "enabled" := Bool(s.enabled), "destinations" := Arr(DestinationTexts(s.destinations))])
  }

  function StreamTexts(streams: seq<Stream>): seq<Json> {
    if streams == [] then [] else [StreamText(streams[0])] + StreamTexts(streams[1..])
  }

  function LimitsText(l: RelayLimits): Json {
    Obj(map["revision" := Num(l.revision), "max_server_connections" := Num(l.maxServerConnections),
            "monthly_traffic_quota_bytes" := Num(l.monthlyTrafficQuotaBytes)])
  }

  function PayloadBase(state: DesiredState, issued: string, expires: string): map<string, Json> {
    map["schema_version" := Num(state.schemaVersion), "relay_id" := Str(state.relayId),
        "generation" := Num(state.generation), "issued_at" := Str(issued), "expires_at" := Str(expires),
        "streams" := Arr(StreamTexts(state.streams))]
  }

  /** A payload for the state, with given texts for its two timestamps. */
  function PayloadText(state: DesiredState, issued: string, expires: string): map<string, Json> {
    PayloadBase(state, issued, expires) +
    if state.limits.Some? then map["limits" := LimitsText(state.limits.value)] else map[]
  }

  // ---------- every strict state parses to itself ----------

  lemma UuidRoundTrip(id: string)
    requires IsUuid(id) && Urls.Lower(id) == id
    ensures ParseUuid(Str(id)) == Ok(id)
  {
  }

  lemma IngestUrlRoundTrip(url: string, lib: Library)
    requires Urls.ValidateIngestUrl(url, lib.netlocOk) == Ok(url)
    ensures ParseIngestUrl(Str(url), lib) == Ok(url)
  {
  }

  lemma JoinableParts(url: string, key: string, lib: Library)
    requires Urls.ValidateIngestUrl(url, lib.netlocOk) == Ok(url) && Urls.ValidateStreamKey(key) == Ok(key)
    ensures Urls.BuildDestinationUrl(url, key, lib.netlocOk).Ok? <==> '?' !in url
  {
  }

  lemma PartsMakeDestination(f: map<string, Json>, d: Destination, lib: Library)
    requires f.Keys == {"destination_id", "platform", "enabled", "ingest_url", "stream_key"}
    requires ParseUuid(f["destination_id"]) == Ok(d.destinationId) && ParsePlatform(f["platform"]) == Ok(d.platform)
    requires AsFlag(f["enabled"]) == Ok(d.enabled)
    requires ParseIngestUrl(f["ingest_url"], lib) == Ok(d.ingestUrl)
    requires ParseStreamKey(f["stream_key"]) == Ok(d.streamKey)
    requires Urls.BuildDestinationUrl(d.ingestUrl, d.streamKey, lib.netlocOk).Ok?
    ensures ParseDestination(Obj(f), lib) == Ok(d)
  {
  }

  lemma DestinationKeys(d: Destination)
    ensures DestinationText(d).fields.Keys == {"destination_id", "platform", "enabled", "ingest_url", "stream_key"}
  {
  }

  lemma KeyRoundTrip(key: string)
    requires Urls.ValidateStreamKey(key) == Ok(key)
    ensures ParseStreamKey(Str(key)) == Ok(key)
  {
  }

  lemma DestinationRoundTrip(d: Destination, lib: Library)
    requires StrictDestination(d, lib)
    ensures ParseDestination(DestinationText(d), lib) == Ok(d)
  {
    hide Urls.ValidateIngestUrl, Urls.ValidateStreamKey, Urls.BuildDestinationUrl;
    DestinationKeys(d);
    UuidRoundTrip(d.destinationId);
    IngestUrlRoundTrip(d.ingestUrl, lib);
    KeyRoundTrip(d.streamKey);
    JoinableParts(d.ingestUrl, d.streamKey, lib);
    PartsMakeDestination(DestinationText(d).fields, d, lib);
  }

  lemma DestinationsStep(items: seq<Json>, ds: seq<Destination>, lib: Library)
    requires items != [] && ds != [] && ParseDestination(items[0], lib) == Ok(ds[0])
    requires ParseDestinations(items[1..], lib) == Ok(ds[1..])
    ensures ParseDestinations(items, lib) == Ok(ds)
  {
    hide ParseDestination;
    assert ds == [ds[0]] + ds[1..];
  }

  lemma {:induction false} DestinationsRoundTrip(ds: seq<Destination>, lib: Library)
    requires forall d | d in ds :: StrictDestination(d, lib)
    ensures ParseDestinations(DestinationTexts(ds), lib) == Ok(ds)
  {
    if ds != [] {
      DestinationRoundTrip(ds[0], lib);
      DestinationsRoundTrip(ds[1..], lib);
      DestinationsStep(DestinationTexts(ds), ds, lib);
    }
  }

  lemma StreamRoundTrip(s: Stream, lib: Library)
    requires StrictStream(s, lib)
    ensures ParseStream(StreamText(s), lib) == Ok(s)
  {
    var f := StreamText(s).fields;
    assert f.Keys == {"stream_id", "publish_credential", "enabled", "destinations"};
    DestinationsRoundTrip(s.destinations, lib);
  }

  lemma {:induction false} StreamsRoundTrip(streams: seq<Stream>, lib: Library)
    requires forall s | s in streams :: StrictStream(s, lib)
    ensures ParseStreams(StreamTexts(streams), lib) == Ok(streams)
  {
    if streams != [] {
      StreamRoundTrip(streams[0], lib);
      StreamsRoundTrip(streams[1..], lib);
      assert StreamTexts(streams)[1..] == StreamTexts(streams[1..]);
      assert streams == [streams[0]] + streams[1..];
    }
  }

  lemma LimitsRoundTrip(l: RelayLimits, generation: int)
    requires l.revision == generation >= 0 && l.maxServerConnections >= 1 && l.monthlyTrafficQuotaBytes >= 1
    ensures ParseSomeLimits(LimitsText(l), generation) == Ok(Some(l))
  {
    assert LimitsText(l).fields.Keys == {"revision", "max_server_connections", "monthly_traffic_quota_bytes"};
  }

  lemma PartsMakeState(f: map<string, Json>, state: DesiredState, relayId: string, lib: Library)
    requires f.Keys == if IsV1(f) then V1_KEYS else V2_KEYS
    requires ParseVersion(f["schema_version"]) == Ok(state.schemaVersion) && f["relay_id"] == Str(relayId)
    requires state.relayId == relayId && AsInteger(f["generation"], 0) == Ok(state.generation)
    requires ParseTime(f["issued_at"], lib) == Ok(state.issuedAt)
    requires ParseTime(f["expires_at"], lib) == Ok(state.expiresAt)
    requires state.issuedAt < state.expiresAt
    requires f["streams"].Arr? && ParseStreams(f["streams"].items, lib) == Ok(state.streams)
    requires Distinct(StreamIds(state.streams))
    requires state.schemaVersion == 2 ==>
               "limits" in f && ParseSomeLimits(f["limits"], state.generation) == Ok(state.limits)
    requires state.schemaVersion != 2 ==> state.limits == None
    ensures ParseState(f, relayId, lib) == Ok(state)
  {
  }

  lemma PayloadKeys(state: DesiredState, issued: string, expires: string)
    requires state.limits.Some? <==> state.schemaVersion == 2
    requires state.schemaVersion == 1 || state.schemaVersion == 2
    ensures var f := PayloadText(state, issued, expires); f.Keys == if IsV1(f) then V1_KEYS else V2_KEYS
  {
  }

  lemma PayloadFields(state: DesiredState, issued: string, expires: string)
    ensures var f := PayloadText(state, issued, expires);
            && V1_KEYS <= f.Keys
            && f["schema_version"] == Num(state.schemaVersion) && f["relay_id"] == Str(state.relayId)
            && f["generation"] == Num(state.generation) && f["issued_at"] == Str(issued)
            && f["expires_at"] == Str(expires) && f["streams"] == Arr(StreamTexts(state.streams))
            && (state.limits.Some? ==> "limits" in f && f["limits"] == LimitsText(state.limits.value))
  {
    hide StreamTexts, LimitsText;
    var base := PayloadBase(state, issued, expires);
    assert base.Keys == V1_KEYS;
    assert forall k | k in V1_KEYS :: PayloadText(state, issued, expires)[k] == base[k];
  }

  /** Nothing that may be sent is refused or changed: parsing the payload of a strict state gives the state. */
  lemma StateRoundTrip(state: DesiredState, issued: string, expires: string, relayId: string, lib: Library)
    requires StrictState(state, relayId, lib)
    requires lib.parseUtc(issued) == Ok(state.issuedAt) && lib.parseUtc(expires) == Ok(state.expiresAt)
    ensures ParseState(PayloadText(state, issued, expires), relayId, lib) == Ok(state)
  {
    PayloadKeys(state, issued, expires);
    PayloadFields(state, issued, expires);
    StreamsRoundTrip(state.streams, lib);
    if state.limits.Some? {
      LimitsRoundTrip(state.limits.value, state.generation);
    }
    PartsMakeState(PayloadText(state, issued, expires), state, relayId, lib);
  }

  // ---------- every parsed state is strict ----------

  lemma LowerOfUuid(id: string)
    requires IsUuid(id)
    ensures IsUuid(Urls.Lower(id)) && Urls.Lower(Urls.Lower(id)) == Urls.Lower(id)
  {
    var low := Urls.Lower(id);
    forall i | 0 <= i < 36 ensures if i in {8, 13, 18, 23} then low[i] == '-' else HexValue(low[i]).Some? {
      assert if i in {8, 13, 18, 23} then id[i] == '-' else HexValue(id[i]).Some?;
      assert low[i] == Urls.LowerChar(id[i]);
    }
    assert Urls.Lower(low) == low;
  }

  lemma ParsedUrlIsStrict(v: Json, lib: Library)
    requires ParseIngestUrl(v, lib).Ok?
    ensures var url := ParseIngestUrl(v, lib).value; Urls.ValidateIngestUrl(url, lib.netlocOk) == Ok(url)
  {
    Urls.ValidationIsIdempotent(v.s, lib.netlocOk);
  }

  lemma ParsedKeyIsStrict(v: Json)
    requires ParseStreamKey(v).Ok?
    ensures var key := ParseStreamKey(v).value; Urls.ValidateStreamKey(key) == Ok(key)
  {
  }

  lemma ParsedDestinationIsStrict(v: Json, lib: Library)
    requires ParseDestination(v, lib).Ok?
    ensures StrictDestination(ParseDestination(v, lib).value, lib)
  {
    var f := v.fields;
    LowerOfUuid(f["destination_id"].s);
    ParsedUrlIsStrict(f["ingest_url"], lib);
    ParsedKeyIsStrict(f["stream_key"]);
    var d := ParseDestination(v, lib).value;
    JoinableParts(d.ingestUrl, d.streamKey, lib);
  }

  lemma {:induction false} ParsedDestinationsAreStrict(items: seq<Json>, lib: Library)
    requires ParseDestinations(items, lib).Ok?
    ensures forall d | d in ParseDestinations(items, lib).value :: StrictDestination(d, lib)
  {
    if items != [] {
      ParsedDestinationIsStrict(items[0], lib);
      ParsedDestinationsAreStrict(items[1..], lib);
    }
  }

  lemma {:induction false} ParsedStreamsAreStrict(items: seq<Json>, lib: Library)
    requires ParseStreams(items, lib).Ok?
    ensures forall s | s in ParseStreams(items, lib).value :: StrictStream(s, lib)
  {
    if items != [] {
      ParsedDestinationsAreStrict(items[0].fields["destinations"].items, lib);
      assert StrictStream(ParseStream(items[0], lib).value, lib);
      ParsedStreamsAreStrict(items[1..], lib);
    }
  }

  lemma ParsedStateIsStrict(payload: map<string, Json>, relayId: string, lib: Library)
    requires ParseState(payload, relayId, lib).Ok?
    ensures StrictState(ParseState(payload, relayId, lib).value, relayId, lib)
  {
    ParsedStreamsAreStrict(payload["streams"].items, lib);
  }

  /** Some payload parses to the state. */
  ghost predicate CanBeSent(state: DesiredState, relayId: string, lib: Library) {
    exists payload :: ParseState(payload, relayId, lib) == Ok(state)
  }

  /** For timestamps that have a text, the states that parsing gives are exactly the strict ones. */
  lemma ParsingGivesExactlyTheStrictStates(
      state: DesiredState, issued: string, expires: string, relayId: string, lib: Library)
    requires lib.parseUtc(issued) == Ok(state.issuedAt) && lib.parseUtc(expires) == Ok(state.expiresAt)
    ensures CanBeSent(state, relayId, lib) <==> StrictState(state, relayId, lib)
  {
    if StrictState(state, relayId, lib) {
      StateRoundTrip(state, issued, expires, relayId, lib);
    }
    if CanBeSent(state, relayId, lib) {
      var payload :| ParseState(payload, relayId, lib) == Ok(state);
      ParsedStateIsStrict(payload, relayId, lib);
    }
  }
}
