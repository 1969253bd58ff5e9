/** The desired state that the manager signs, parsed strictly. */
module Models {
  import opened Wrappers
  import opened Json
  import Urls

  datatype Destination = Destination(
    destinationId: string, platform: string, enabled: bool, ingestUrl: string, streamKey: string)

  datatype Stream = Stream(
    streamId: string, publishCredential: string, enabled: bool, destinations: seq<Destination>)
  {
    function Path(): string {
      "live/" + streamId
    }
  }

  datatype RelayLimits = RelayLimits(revision: int, maxServerConnections: int, monthlyTrafficQuotaBytes: int)

  /** Times are microseconds of UTC. */
  datatype DesiredState = DesiredState(
    schemaVersion: int, relayId: string, generation: int, issuedAt: int, expiresAt: int,
    streams: seq<Stream>, limits: Option<RelayLimits>)

  /** Library code that is not modelled: reading an ISO timestamp, and the checks of a network location. */
  datatype Library = Library(parseUtc: string -> Result<int>, netlocOk: string -> bool)

  const PLATFORMS := {"chaturbate", "stripchat", "bongacams", "camsoda", "exclusivelive"}

  // ---------- field validators ----------

  /** Equality with an integer as the source language has it: true is 1 and false is 0. */
  predicate EqualsNumber(v: Json, n: int) {
    match v
    case Num(m) => m == n
    case Bool(b) => n == if b then 1 else 0
    case _ => false
  }

  predicate Hashable(v: Json) {
    !v.Arr? && !v.Obj?
  }

  function AsFields(v: Json, keys: set<string>): Result<map<string, Json>> {
    if v.Obj? && v.fields.Keys == keys then Ok(v.fields) else Err(Invalid)
  }

  function AsText(v: Json): Result<string> {
    if v.Str? then Ok(v.s) else Err(Invalid)
  }

  function AsFlag(v: Json): Result<bool> {
    if v.Bool? then Ok(v.b) else Err(Invalid)
  }

  function AsItems(v: Json): Result<seq<Json>> {
    if v.Arr? then Ok(v.items) else Err(Invalid)
  }

  function AsInteger(v: Json, least: int): Result<int> {
    if v.Num? && v.n >= least then Ok(v.n) else Err(Invalid)
  }

  predicate IsTokenChar(c: char) {
    Urls.IsLetter(c) || '0' <= c <= '9' || c == '_' || c == '-'
  }

  predicate IsToken(s: string, least: nat, most: nat) {
    least <= |s| <= most && forall i | 0 <= i < |s| :: IsTokenChar(s[i])
  }

  /** The canonical form with hyphens, in either case. */
  predicate IsUuid(s: string) {
    |s| == 36 &&
    forall i | 0 <= i < 36 :: if i in {8, 13, 18, 23} then s[i] == '-' else HexValue(s[i]).Some?
  }

  /** The 64 characters of tokens by their codes; none of them has a meaning in a path, a URL or a line of text. */
  lemma TokenCharIsExact(c: char)
    ensures var n := c as int;
            IsTokenChar(c) <==> 48 <= n <= 57 || 65 <= n <= 90 || 97 <= n <= 122 || n == 45 || n == 95
    ensures IsTokenChar(c) ==> c !in "/?#%&=:@.\\\"' " && c as int < 0x7F
  {
  }

  predicate Distinct(ids: seq<string>) {
    forall i, j | 0 <= i < j < |ids| :: ids[i] != ids[j]
  }

  // ---------- parsing ----------

  function ParsePlatform(v: Json): Result<string> {
    if v.Str? && v.s in PLATFORMS then Ok(v.s)
    else if Hashable(v) then Err(Invalid)
    else Err(Fault)
  }

  function ParseUuid(v: Json): Result<string> {
    if v.Str? && IsUuid(v.s) then Ok(Urls.Lower(v.s)) else Err(Invalid)
  }

  function ParseIngestUrl(v: Json, lib: Library): Result<string> {
    var url :- AsText(v);
    Urls.ValidateIngestUrl(url, lib.netlocOk)
  }

  function ParseStreamKey(v: Json): Result<string> {
    var key :- AsText(v);
    Urls.ValidateStreamKey(key)
  }

  function ParseDestination(v: Json, lib: Library): Result<Destination> {
    var f :- AsFields(v, {"destination_id", "platform", "enabled", "ingest_url", "stream_key"});
    var id :- ParseUuid(f["destination_id"]);
    var platform :- ParsePlatform(f["platform"]);
    var enabled :- AsFlag(f["enabled"]);
    var ingestUrl :- ParseIngestUrl(f["ingest_url"], lib);
    var streamKey :- ParseStreamKey(f["stream_key"]);
    var _ :- Urls.BuildDestinationUrl(ingestUrl, streamKey, lib.netlocOk);
    Ok(Destination(id, platform, enabled, ingestUrl, streamKey))
  }

  function ParseDestinations(items: seq<Json>, lib: Library): Result<seq<Destination>> {
    if items == [] then Ok([])
    else
      var head :- ParseDestination(items[0], lib);
      var tail :- ParseDestinations(items[1..], lib);
      Ok([head] + tail)
  }

  function DestinationIds(ds: seq<Destination>): seq<string> {
    seq(|ds|, i requires 0 <= i < |ds| => ds[i].destinationId)
  }

  function ParseStream(v: Json, lib: Library): Result<Stream> {
    var f :- AsFields(v, {"stream_id", "publish_credential", "enabled", "destinations"});
    var id :- AsText(f["stream_id"]);
    var _ :- Need(IsToken(id, 8, 128), Invalid);
    var credential :- AsText(f["publish_credential"]);
    var _ :- Need(IsToken(credential, 24, 192), Invalid);
    var enabled :- AsFlag(f["enabled"]);
    var items :- AsItems(f["destinations"]);
    var destinations :- ParseDestinations(items, lib);
    var _ :- Need(Distinct(DestinationIds(destinations)), Invalid);
    Ok(Stream(id, credential, enabled, destinations))
  }

  function ParseStreams(items: seq<Json>, lib: Library): Result<seq<Stream>> {
    if items == [] then Ok([])
    else
      var head :- ParseStream(items[0], lib);
      var tail :- ParseStreams(items[1..], lib);
      Ok([head] + tail)
  }

  function StreamIds(streams: seq<Stream>): seq<string> {
    seq(|streams|, i requires 0 <= i < |streams| => streams[i].streamId)
  }

  function ParseLimits(v: Json): Result<RelayLimits> {
    var f :- AsFields(v, {"revision", "max_server_connections", "monthly_traffic_quota_bytes"});
    var revision :- AsInteger(f["revision"], 0);
    var connections :- AsInteger(f["max_server_connections"], 1);
    var quota :- AsInteger(f["monthly_traffic_quota_bytes"], 1);
    Ok(RelayLimits(revision, connections, quota))
  }

  const TIMESTAMPS := {"issued_at", "expires_at"}
  const V1_KEYS := {"schema_version", "relay_id", "generation", "issued_at", "expires_at", "streams"}
  const V2_KEYS := V1_KEYS + {"limits"}

  predicate IsV1(fields: map<string, Json>) {
    "schema_version" in fields && EqualsNumber(fields["schema_version"], 1)
  }

  function ParseVersion(v: Json): Result<int> {
    if EqualsNumber(v, 1) then Ok(1)
    else if EqualsNumber(v, 2) then Ok(2)
    else if Hashable(v) then Err(Invalid)
    else Err(Fault)
  }

  function ParseTime(v: Json, lib: Library): Result<int> {
    var text :- AsText(v);
    lib.parseUtc(text)
  }

  function ParseState(payload: map<string, Json>, relayId: string, lib: Library): Result<DesiredState> {
    var f :- AsFields(Obj(payload), if IsV1(payload) then V1_KEYS else V2_KEYS);
    var version :- ParseVersion(f["schema_version"]);
    var _ :- Need(f["relay_id"] == Str(relayId), Invalid);
    var generation :- AsInteger(f["generation"], 0);
    var issuedAt :- ParseTime(f["issued_at"], lib);
    var expiresAt :- ParseTime(f["expires_at"], lib);
    var _ :- Need(expiresAt > issuedAt, Invalid);
    var items :- AsItems(f["streams"]);
    var streams :- ParseStreams(items, lib);
    var _ :- Need(Distinct(StreamIds(streams)), Invalid);
    var limits :- if version == 2 then ParseSomeLimits(f["limits"], generation) else Ok(None);
    Ok(DesiredState(version, relayId, generation, issuedAt, expiresAt, streams, limits))
  }

  function ParseSomeLimits(v: Json, generation: int): Result<Option<RelayLimits>> {
    var limits :- ParseLimits(v);
    if limits.revision != generation then Err(Invalid) else Ok(Some(limits))
  }

  // ---------- errors that nobody handles ----------

  /** A URL whose network location the library refuses. */
  predicate HasBadNetloc(v: Json, lib: Library) {
    v.Str? && Urls.SplitUrl(v.s, lib.netlocOk) == Err(Fault)
  }

  /** A destination is refused with an error that nobody handles exactly for a platform that cannot be looked up, or
      for a URL that is otherwise fit to be split and that the library refuses, if the members before them are right. */
  lemma DestinationFaultsExactly(v: Json, lib: Library)
    ensures ParseDestination(v, lib) == Err(Fault) <==>
            && v.Obj? && v.fields.Keys == {"destination_id", "platform", "enabled", "ingest_url", "stream_key"}
            && v.fields["destination_id"].Str? && IsUuid(v.fields["destination_id"].s)
            && (|| v.fields["platform"].Arr? || v.fields["platform"].Obj?
                || (&& v.fields["platform"].Str? && v.fields["platform"].s in PLATFORMS && v.fields["enabled"].Bool?
                    && HasBadNetloc(v.fields["ingest_url"], lib)
                    && 0 < |v.fields["ingest_url"].s| <= 2048 && !Urls.HasControl(v.fields["ingest_url"].s)))
  {
    hide Urls.SplitUrl, Urls.AllowedParts, IsUuid, Urls.Lower;
    if v.Obj? && "ingest_url" in v.fields && v.fields["ingest_url"].Str? {
      UrlFaults(v.fields["ingest_url"].s, lib);
    }
    if v.Obj? && "ingest_url" in v.fields && "stream_key" in v.fields {
      JoinNeverFaults(v, lib);
    }
  }

  lemma UrlFaults(text: string, lib: Library)
    ensures Urls.ValidateIngestUrl(text, lib.netlocOk) == Err(Fault) <==>
            0 < |text| <= 2048 && !Urls.HasControl(text) && Urls.SplitUrl(text, lib.netlocOk) == Err(Fault)
  {
    hide Urls.SplitText, Urls.AllowedParts, Urls.HasControl;
  }

  /** Once a URL is accepted, joining it again meets no such error. */
  lemma JoinNeverFaults(v: Json, lib: Library)
    requires v.Obj? && "ingest_url" in v.fields && "stream_key" in v.fields
    ensures var url := ParseIngestUrl(v.fields["ingest_url"], lib);
            var key := ParseStreamKey(v.fields["stream_key"]);
            && key != Err(Fault)
            && (url.Ok? && key.Ok? ==> Urls.BuildDestinationUrl(url.value, key.value, lib.netlocOk) != Err(Fault))
  {
    hide Urls.SplitUrl, Urls.AllowedParts;
    var url := v.fields["ingest_url"];
    if ParseIngestUrl(url, lib).Ok? {
      Urls.ValidationIsIdempotent(url.s, lib.netlocOk);
    }
  }

  /** What in a payload can lead to such an error. */
  ghost predicate HasFaultCause(payload: map<string, Json>, lib: Library) {
    || ("schema_version" in payload && !Hashable(payload["schema_version"]))
    || (exists k | k in TIMESTAMPS && k in payload :: payload[k].Str? && lib.parseUtc(payload[k].s) == Err(Fault))
    || ("streams" in payload && payload["streams"].Arr? &&
        exists s | s in payload["streams"].items :: HasFaultyDestination(s, lib))
  }

  ghost predicate HasFaultyDestination(s: Json, lib: Library) {
    && s.Obj? && "destinations" in s.fields && s.fields["destinations"].Arr?
    && exists d | d in s.fields["destinations"].items :: ParseDestination(d, lib) == Err(Fault)
  }

  lemma {:induction false} DestinationsFaultHasCause(items: seq<Json>, lib: Library)
    requires ParseDestinations(items, lib) == Err(Fault)
    ensures exists d | d in items :: ParseDestination(d, lib) == Err(Fault)
  {
    hide ParseDestination;
    if ParseDestination(items[0], lib).Ok? {
      DestinationsFaultHasCause(items[1..], lib);
      var d :| d in items[1..] && ParseDestination(d, lib) == Err(Fault);
      assert d in items;
    } else {
      assert items[0] in items;
    }
  }

  lemma StreamFaultHasCause(s: Json, lib: Library)
    requires ParseStream(s, lib) == Err(Fault)
    ensures HasFaultyDestination(s, lib)
  {
    DestinationsFaultHasCause(s.fields["destinations"].items, lib);
  }

  lemma {:induction false} StreamsFaultHasCause(items: seq<Json>, lib: Library)
    requires ParseStreams(items, lib) == Err(Fault)
    ensures exists s | s in items :: HasFaultyDestination(s, lib)
  {
    hide ParseStream, HasFaultyDestination;
    if ParseStream(items[0], lib).Ok? {
      StreamsFaultHasCause(items[1..], lib);
      var s :| s in items[1..] && HasFaultyDestination(s, lib);
      assert s in items;
    } else {
      StreamFaultHasCause(items[0], lib);
      assert items[0] in items;
    }
  }

  /** Nothing else does: a payload without such a cause parses, or is refused with the error that callers handle. */
  lemma ParseFaultHasCause(payload: map<string, Json>, relayId: string, lib: Library)
    requires ParseState(payload, relayId, lib) == Err(Fault)
    ensures HasFaultCause(payload, lib)
  {
    hide HasFaultyDestination;
    assert "issued_at" in TIMESTAMPS && "expires_at" in TIMESTAMPS;
    if Hashable(payload["schema_version"])
       && (payload["issued_at"].Str? ==> lib.parseUtc(payload["issued_at"].s) != Err(Fault))
       && (payload["expires_at"].Str? ==> lib.parseUtc(payload["expires_at"].s) != Err(Fault))
    {
      LimitsNeverFault(payload);
      assert ParseStreams(payload["streams"].items, lib) == Err(Fault);
      StreamsFaultHasCause(payload["streams"].items, lib);
    }
  }

  lemma LimitsNeverFault(payload: map<string, Json>)
    ensures forall v, g :: ParseSomeLimits(v, g) != Err(Fault)
  {
  }

  // ---------- what a parsed state guarantees ----------

  /** A destination that its worker can use: the join it makes when it starts does not fail, and no field holds
      the character that separates the fields in the fingerprint. */
  predicate GoodDestination(d: Destination, lib: Library) {
    && Urls.BuildDestinationUrl(d.ingestUrl, d.streamKey, lib.netlocOk).Ok?
    && '\0' !in d.destinationId && '\0' !in d.platform && '\0' !in d.ingestUrl && '\0' !in d.streamKey
  }

  predicate GoodStream(s: Stream, lib: Library) {
    && IsToken(s.streamId, 8, 128)
    && Distinct(DestinationIds(s.destinations))
    && forall i | 0 <= i < |s.destinations| :: GoodDestination(s.destinations[i], lib)
  }

  predicate GoodLimits(state: DesiredState) {
    && (state.limits.Some? <==> state.schemaVersion == 2)
    && (state.limits.Some? ==>
          var l := state.limits.value;
          l.revision == state.generation && l.maxServerConnections >= 1 && l.monthlyTrafficQuotaBytes >= 1)
  }

  predicate GoodState(state: DesiredState, lib: Library) {
    && state.generation >= 0 && state.issuedAt < state.expiresAt
    && Distinct(StreamIds(state.streams))
    && (forall i | 0 <= i < |state.streams| :: GoodStream(state.streams[i], lib))
    && GoodLimits(state)
  }

  lemma ParsedDestinationIsGood(v: Json, lib: Library)
    requires ParseDestination(v, lib).Ok?
    ensures GoodDestination(ParseDestination(v, lib).value, lib)
  {
    UuidHasNoNul(v.fields["destination_id"]);
    PlatformHasNoNul(v.fields["platform"]);
    IngestUrlHasNoNul(v.fields["ingest_url"], lib);
    StreamKeyHasNoNul(v.fields["stream_key"]);
  }

  lemma UuidHasNoNul(v: Json)
    requires ParseUuid(v).Ok?
    ensures '\0' !in ParseUuid(v).value
  {
    assert forall i | 0 <= i < 36 :: v.s[i] != '\0';
  }

  lemma PlatformHasNoNul(v: Json)
    requires ParsePlatform(v).Ok?
    ensures '\0' !in ParsePlatform(v).value
  {
  }

  lemma IngestUrlHasNoNul(v: Json, lib: Library)
    requires ParseIngestUrl(v, lib).Ok?
    ensures '\0' !in ParseIngestUrl(v, lib).value
  {
    Urls.KeptPartsAreShort(v.s, lib.netlocOk);
    NoControlNoNul(Urls.ValidateIngestUrl(v.s, lib.netlocOk).value);
  }

  lemma StreamKeyHasNoNul(v: Json)
    requires ParseStreamKey(v).Ok?
    ensures '\0' !in ParseStreamKey(v).value
  {
    NoControlNoNul(v.s);
  }

  lemma NoControlNoNul(s: string)
    requires !Urls.HasControl(s)
    ensures '\0' !in s
  {
    assert forall i | 0 <= i < |s| :: !Urls.IsControl(s[i]);
  }

  lemma {:induction false} ParsedDestinationsAreGood(items: seq<Json>, lib: Library)
    requires ParseDestinations(items, lib).Ok?
    ensures forall d | d in ParseDestinations(items, lib).value :: GoodDestination(d, lib)
  {
    if items != [] {
      ParsedDestinationIsGood(items[0], lib);
      ParsedDestinationsAreGood(items[1..], lib);
    }
  }

  lemma {:induction false} ParsedStreamsAreGood(items: seq<Json>, lib: Library)
    requires ParseStreams(items, lib).Ok?
    ensures forall s | s in ParseStreams(items, lib).value :: GoodStream(s, lib)
  {
    if items != [] {
      var s := ParseStream(items[0], lib).value;
      ParsedDestinationsAreGood(items[0].fields["destinations"].items, lib);
      assert GoodStream(s, lib);
      ParsedStreamsAreGood(items[1..], lib);
    }
  }

  /** Everything the other components assume about an accepted state. */
  lemma ParsedStateIsGood(payload: map<string, Json>, relayId: string, lib: Library)
    requires ParseState(payload, relayId, lib).Ok?
    ensures GoodState(ParseState(payload, relayId, lib).value, lib)
  {
    ParsedStreamsAreGood(payload["streams"].items, lib);
  }

  // ---------- content without timestamps ----------

  function WithoutTimestamps(payload: map<string, Json>): map<string, Json> {
    payload - TIMESTAMPS
  }

  /** Equality without timestamps is equality of every other member. */
  lemma WithoutTimestampsIsExact(p: map<string, Json>, q: map<string, Json>)
    ensures WithoutTimestamps(p) == WithoutTimestamps(q) <==>
            forall k | k in p.Keys + q.Keys && k != "issued_at" && k != "expires_at" ::
              k in p && k in q && p[k] == q[k]
  {
    var a, b := WithoutTimestamps(p), WithoutTimestamps(q);
    if a == b {
      forall k | k in p.Keys + q.Keys && k != "issued_at" && k != "expires_at"
        ensures k in p && k in q && p[k] == q[k]
      {
        assert k in a && k in b && a[k] == b[k];
      }
    }
    if forall k | k in p.Keys + q.Keys && k != "issued_at" && k != "expires_at" :: k in p && k in q && p[k] == q[k] {
      assert a.Keys == b.Keys;
      assert forall k | k in a :: a[k] == b[k];
    }
  }

  /** Two states that differ in nothing but their timestamps. */
  predicate SameContent(a: DesiredState, b: DesiredState) {
    a == b.(issuedAt := a.issuedAt, expiresAt := a.expiresAt)
  }

  /** The comparison that the source makes on payloads decides about the parsed states. */
  lemma SamePayloadSameContent(
      p: map<string, Json>, q: map<string, Json>, relayId: string, lib: Library)
    requires ParseState(p, relayId, lib).Ok? && ParseState(q, relayId, lib).Ok?
    requires WithoutTimestamps(p) == WithoutTimestamps(q)
    ensures SameContent(ParseState(p, relayId, lib).value, ParseState(q, relayId, lib).value)
  {
    forall k | k in V2_KEYS - TIMESTAMPS && k in p ensures k in q && p[k] == q[k] {
      assert k in WithoutTimestamps(p);
      assert p[k] == WithoutTimestamps(p)[k] == WithoutTimestamps(q)[k] == q[k];
    }
    assert "schema_version" in p && "relay_id" in p && "generation" in p && "streams" in p;
  }

  // ---------- path items of the media server ----------

  /** Whether an item of the path list says that its path has a publisher. */
  predicate IsReady(item: map<string, Json>) {
    if "online" in item then item["online"] == Bool(true)
    else "ready" in item && item["ready"] == Bool(true)
  }

  /** The newer member decides whenever it is there; the older one only without it, and nothing but true counts. */
  lemma ReadinessIsExact(item: map<string, Json>)
    ensures "online" in item ==> (IsReady(item) <==> item["online"].Bool? && item["online"].b)
    ensures "online" !in item && "ready" in item ==> (IsReady(item) <==> item["ready"].Bool? && item["ready"].b)
    ensures "online" !in item && "ready" !in item ==> !IsReady(item)
  {
  }
}
