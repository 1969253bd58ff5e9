/** A concrete envelope that is fetched as UTF-16 and does not fit the cache, which is UTF-8. */
module OversizedCaches {
  import opened Wrappers
  import opened Json
  import opened Models
  import opened Payloads
  import opened Sizes
  import opened StateStores
  import Urls

  // ---------- the state ----------

  const WIDE := '\U{4E00}'

  function Repeat(c: char, n: nat): string {
    seq(n, _ => c)
  }

  /** Identifiers that differ in their last three digits. */
  function NumberedId(i: nat): string
    requires i < 4096
  {
    "00000000-0000-4000-8000-000000000" + [HexDigit(i / 16 / 16), HexDigit(i / 16 % 16), HexDigit(i % 16)]
  }

  const URL := "rtmp://h"

  function WideDestination(i: nat): Destination
    requires i < 4096
  {
    Destination(NumberedId(i), "camsoda", true, URL, Repeat(WIDE, 2048))
  }

  function WideDestinations(n: nat): seq<Destination>
    requires n <= 4096
  {
    seq(n, i requires 0 <= i < n => WideDestination(i))
  }

  const RELAY := "relay"
  const COUNT := 800

  function WideStream(): Stream {
    Stream("stream-1", Repeat('c', 24), true, WideDestinations(COUNT))
  }

  /** What the sample leaves open: the library, the signature function, and two timestamps with their times. */
  datatype Setting = Setting(
    lib: Library, mac: string -> string, issued: string, expires: string, issuedAt: int, expiresAt: int)

  predicate IsTimestamp(text: string) {
    |text| <= 40 && forall i | 0 <= i < |text| :: IsPlain(text[i]) && text[i] as int < 0x80
  }

  /** The library reads the timestamps in that order and accepts a plain host, and signatures are short ASCII text. */
  ghost predicate IsSetting(x: Setting) {
    && IsTimestamp(x.issued) && x.lib.parseUtc(x.issued) == Ok(x.issuedAt)
    && IsTimestamp(x.expires) && x.lib.parseUtc(x.expires) == Ok(x.expiresAt)
    && x.issuedAt < x.expiresAt && x.lib.netlocOk("h")
    && forall text :: IsAscii(x.mac(text)) && |x.mac(text)| <= 100
  }

  function WideState(x: Setting): DesiredState {
    DesiredState(1, RELAY, 1, x.issuedAt, x.expiresAt, [WideStream()], None)
  }

  function SmallState(x: Setting): DesiredState {
    DesiredState(1, RELAY, 0, x.issuedAt, x.expiresAt, [], None)
  }

  lemma HexDigitFacts(d: nat)
    requires d < 16
    ensures var c := HexDigit(d);
            HexValue(c) == Some(d) && Urls.LowerChar(c) == c && IsPlain(c) && c as int < 0x80
  {
  }

  lemma IdFacts(i: nat)
    requires i < 4096
    ensures IsUuid(NumberedId(i)) && Urls.Lower(NumberedId(i)) == NumberedId(i) && |NumberedId(i)| == 36
    ensures forall k | 0 <= k < 36 :: IsPlain(NumberedId(i)[k]) && NumberedId(i)[k] as int < 0x80
  {
    hide HexDigit, HexValue;
    var id := NumberedId(i);
    HexDigitFacts(0);
    HexDigitFacts(i / 16 / 16);
    HexDigitFacts(i / 16 % 16);
    HexDigitFacts(i % 16);
    assert HexValue('0').Some? && HexValue('4').Some? && HexValue('8').Some? by {
      DecimalDigits();
    }
    forall k | 0 <= k < 36
      ensures if k in {8, 13, 18, 23} then id[k] == '-' else HexValue(id[k]).Some?
      ensures Urls.LowerChar(id[k]) == id[k] && IsPlain(id[k]) && id[k] as int < 0x80
    {
    }
    assert Urls.Lower(id) == id;
  }

  lemma DecimalDigits()
    ensures HexValue('0').Some? && HexValue('4').Some? && HexValue('8').Some?
  {
  }

  lemma IdsDiffer(i: nat, j: nat)
    requires i < j < 4096
    ensures NumberedId(i) != NumberedId(j)
  {
    hide HexDigit, HexValue;
    var a, b := NumberedId(i), NumberedId(j);
    HexDigitFacts(i / 16 / 16);
    HexDigitFacts(i / 16 % 16);
    HexDigitFacts(i % 16);
    HexDigitFacts(j / 16 / 16);
    HexDigitFacts(j / 16 % 16);
    HexDigitFacts(j % 16);
    assert a[33] == HexDigit(i / 16 / 16) && a[34] == HexDigit(i / 16 % 16) && a[35] == HexDigit(i % 16);
    assert b[33] == HexDigit(j / 16 / 16) && b[34] == HexDigit(j / 16 % 16) && b[35] == HexDigit(j % 16);
  }

  lemma HostIsPlain()
    ensures Urls.Host("h") == "h" && !Urls.HasCredentials("h") && Urls.ValidPort("h")
  {
    assert Urls.FirstOf("h", {':'}) == 1;
    assert Urls.AfterLast("h", '@') == 0;
    assert Urls.HostInfo("h") == "h";
    assert Urls.PortText("h") == "";
  }

  lemma UrlIsAccepted(lib: Library)
    requires lib.netlocOk("h")
    ensures Urls.ValidateIngestUrl(URL, lib.netlocOk) == Ok(URL) && '?' !in URL
  {
    hide Urls.SplitUrl, Urls.Host, Urls.HasCredentials, Urls.ValidPort;
    var p := Urls.Parts("rtmp", "h", "", "", "");
    assert Urls.JoinUrl(p) == URL;
    Urls.SplitOfJoined(p, lib.netlocOk);
    HostIsPlain();
  }

  lemma StreamIsStrict(lib: Library)
    requires lib.netlocOk("h")
    ensures StrictStream(WideStream(), lib)
  {
    hide Urls.ValidateIngestUrl, Urls.Lower, IsUuid, NumberedId;
    UrlIsAccepted(lib);
    var ds := WideDestinations(COUNT);
    forall i, j | 0 <= i < j < COUNT ensures DestinationIds(ds)[i] != DestinationIds(ds)[j] {
      IdsDiffer(i, j);
    }
    forall d | d in ds ensures StrictDestination(d, lib) {
      var i :| 0 <= i < COUNT && ds[i] == d;
      IdFacts(i);
      assert !Urls.HasControl(Repeat(WIDE, 2048));
    }
    assert IsToken("stream-1", 8, 128) && IsToken(Repeat('c', 24), 24, 192);
  }

  // ---------- the envelope ----------

  function PayloadFor(state: DesiredState, x: Setting): Json {
    Obj(PayloadText(state, x.issued, x.expires))
  }

  function EnvelopeFor(state: DesiredState, x: Setting): Json {
    Obj(map["payload" := PayloadFor(state, x), "signature" := Str(x.mac(Canonical(PayloadFor(state, x))))])
  }

  function SampleConfig(x: Setting): Config {
    RelayConfig(RELAY, x.mac, x.lib)
  }

  lemma EnvelopeIsValid(state: DesiredState, x: Setting)
    requires IsSetting(x) && StrictState(state, RELAY, x.lib)
    requires state.issuedAt == x.issuedAt && state.expiresAt == x.expiresAt
    ensures ValidateEnvelope(SampleConfig(x), EnvelopeFor(state, x), x.issuedAt, false) == Ok(state)
  {
    StateRoundTrip(state, x.issued, x.expires, RELAY, x.lib);
    ValidationIsExact(SampleConfig(x), EnvelopeFor(state, x), x.issuedAt, false, state);
  }

  // ---------- its size ----------

  lemma {:induction false} RepeatSize(e: Encoding, c: char, n: nat)
    ensures TextSize(e, Repeat(c, n)) == n * CharSize(e, c)
  {
    if n > 0 {
      assert Repeat(c, n)[1..] == Repeat(c, n - 1);
      RepeatSize(e, c, n - 1);
    }
  }

  lemma {:induction false} QuotedPlainSize(e: Encoding, s: string)
    requires forall i | 0 <= i < |s| :: IsPlain(s[i])
    ensures TextSize(e, Quoted(s)) == TextSize(e, s) + Unit(e)
  {
    hide CharSize, Escape;
    if s == "" {
      SizeOfQuote(e);
    } else {
      QuotedSize(e, s);
      EscapeSize(e, s[0]);
      QuotedPlainSize(e, s[1..]);
    }
  }

  lemma {:induction false} QuotedAtMost(s: string)
    ensures TextSize(Utf16, Quoted(s)) <= 12 * |s| + 2
  {
    hide CharSize, Escape;
    if s == "" {
      SizeOfQuote(Utf16);
    } else {
      QuotedSize(Utf16, s);
      EscapeSize(Utf16, s[0]);
      QuotedAtMost(s[1..]);
    }
  }

  lemma StrSize(e: Encoding, s: string)
    ensures TextSize(e, Canonical(Str(s))) == Unit(e) + TextSize(e, Quoted(s))
  {
    SizeOfSum(e, "\"", Quoted(s));
    SizeBounds(e, "\"");
  }

  /** The size of a field that holds text without escapes, in ASCII. */
  lemma TextFieldSize(key: string, s: string)
    requires forall i | 0 <= i < |key| :: IsPlain(key[i]) && key[i] as int < 0x80
    requires forall i | 0 <= i < |s| :: IsPlain(s[i]) && s[i] as int < 0x80
    ensures FieldSize(Utf16, key, Str(s)) == 2 * (|key| + |s|) + 12
  {
    hide CharSize, Canonical, Quoted;
    KeySize(key);
    StrSize(Utf16, s);
    QuotedPlainSize(Utf16, s);
    SizeBounds(Utf16, s);
  }

  lemma KeySize(key: string)
    requires forall i | 0 <= i < |key| :: IsPlain(key[i]) && key[i] as int < 0x80
    ensures TextSize(Utf16, Quoted(key)) == 2 * |key| + 2
  {
    QuotedPlainSize(Utf16, key);
    SizeBounds(Utf16, key);
  }

  lemma NumberFieldSize(key: string, v: Json)
    requires forall i | 0 <= i < |key| :: IsPlain(key[i]) && key[i] as int < 0x80
    requires v == Bool(true) || v == Num(0) || v == Num(1)
    ensures FieldSize(Utf16, key, v) <= 2 * |key| + 16
  {
    KeySize(key);
    assert Canonical(v) == "true" || Canonical(v) == "0" || Canonical(v) == "1";
    SizeBounds(Utf16, Canonical(v));
  }

  lemma {:induction false} SmallFields(fields: map<string, Json>, keys: seq<string>, bound: nat)
    requires forall k | k in keys :: k in fields && FieldSize(Utf16, k, fields[k]) <= bound
    ensures FieldsSize(Utf16, fields, keys) <= bound * |keys|
  {
    hide FieldSize;
    if keys != [] {
      SmallFields(fields, keys[1..], bound);
    }
  }

  lemma FieldHoldsValue(key: string, v: Json)
    ensures FieldSize(Utf8, key, v) >= TextSize(Utf8, Canonical(v))
    ensures FieldSize(Utf16, key, v) == TextSize(Utf16, Quoted(key)) + TextSize(Utf16, Canonical(v)) + 6
  {
  }

  /** An object with one large field: its size is that field and little else. */
  lemma OneLargeField(fields: map<string, Json>, key: string, bound: nat)
    requires key in fields && forall k | k in fields && k != key :: FieldSize(Utf16, k, fields[k]) <= bound
    ensures TextSize(Utf16, Canonical(Obj(fields))) <= 2 + FieldSize(Utf16, key, fields[key]) + bound * (|fields| - 1)
    ensures TextSize(Utf8, Canonical(Obj(fields))) >= TextSize(Utf8, Canonical(fields[key]))
  {
    hide FieldSize, FieldsSize, Canonical;
    var others := fields - {key};
    ContainerSize(Utf16, Obj(fields));
    ContainerSize(Utf8, Obj(fields));
    TotalWithout(Utf16, fields, key);
    TotalWithout(Utf8, fields, key);
    FieldHoldsValue(key, fields[key]);
    SortedKeysCount(others.Keys);
    assert others.Keys == fields.Keys - {key} && |others.Keys| == |fields.Keys| - 1;
    SmallFields(others, SortedKeys(others.Keys), bound);
  }

  lemma KeyFieldSize()
    ensures FieldSize(Utf16, "stream_key", Str(Repeat(WIDE, 2048))) == 4128
    ensures TextSize(Utf8, Canonical(Str(Repeat(WIDE, 2048)))) >= 6144
  {
    hide Canonical, Quoted;
    var key := Repeat(WIDE, 2048);
    assert forall i | 0 <= i < |key| :: IsPlain(key[i]);
    KeySize("stream_key");
    StrSize(Utf16, key);
    StrSize(Utf8, key);
    QuotedPlainSize(Utf16, key);
    QuotedPlainSize(Utf8, key);
    RepeatSize(Utf16, WIDE, 2048);
    RepeatSize(Utf8, WIDE, 2048);
    FieldHoldsValue("stream_key", Str(key));
  }

  lemma DestinationSize(i: nat)
    requires i < 4096
    ensures TextSize(Utf16, Canonical(DestinationText(WideDestination(i)))) <= 4730
    ensures TextSize(Utf8, Canonical(DestinationText(WideDestination(i)))) >= 6144
  {
    hide FieldSize, Canonical, NumberedId, Repeat, TextSize;
    var f := DestinationText(WideDestination(i)).fields;
    assert f.Keys == {"destination_id", "platform", "enabled", "ingest_url", "stream_key"};
    IdFacts(i);
    TextFieldSize("destination_id", NumberedId(i));
    TextFieldSize("platform", "camsoda");
    TextFieldSize("ingest_url", URL);
    NumberFieldSize("enabled", Bool(true));
    KeyFieldSize();
    OneLargeField(f, "stream_key", 150);
    assert |f.Keys| == 5;
  }

  ghost predicate IsWide(d: Destination) {
    exists i: nat :: i < 4096 && d == WideDestination(i)
  }

  lemma {:induction false} DestinationsSize(ds: seq<Destination>)
    requires forall d | d in ds :: IsWide(d)
    ensures ItemsSize(Utf16, DestinationTexts(ds)) <= 4732 * |ds|
    ensures ItemsSize(Utf8, DestinationTexts(ds)) >= 6144 * |ds|
  {
    hide Canonical, TextSize, DestinationText;
    if ds != [] {
      assert IsWide(ds[0]);
      var i: nat :| i < 4096 && ds[0] == WideDestination(i);
      DestinationSize(i);
      DestinationsSize(ds[1..]);
    }
  }

  lemma WideListSize()
    ensures TextSize(Utf16, Canonical(Arr(DestinationTexts(WideDestinations(COUNT))))) <= 3_785_602
    ensures TextSize(Utf8, Canonical(Arr(DestinationTexts(WideDestinations(COUNT))))) >= 4_915_200
  {
    hide Canonical, TextSize, ItemsSize, WideDestination;
    var ds := WideDestinations(COUNT);
    forall d | d in ds ensures IsWide(d) {
      var i :| 0 <= i < COUNT && ds[i] == d;
      assert d == WideDestination(i);
    }
    DestinationsSize(ds);
    ContainerSize(Utf16, Arr(DestinationTexts(ds)));
    ContainerSize(Utf8, Arr(DestinationTexts(ds)));
    assert DestinationTexts(ds) != [];
  }

  lemma StreamKeysCount()
    ensures |{"stream_id", "publish_credential", "enabled", "destinations"}| == 4
  {
  }

  lemma PayloadKeysCount()
    ensures |V1_KEYS| == 6
  {
  }

  lemma SmallStreamField(s: Stream, k: string)
    requires s.streamId == "stream-1" && s.publishCredential == Repeat('c', 24) && s.enabled
    requires k in {"stream_id", "publish_credential", "enabled"}
    ensures k in StreamText(s).fields && FieldSize(Utf16, k, StreamText(s).fields[k]) <= 150
  {
    hide FieldSize, DestinationTexts;
    var f := StreamText(s).fields;
    if k == "stream_id" {
      TextFieldSize("stream_id", "stream-1");
    } else if k == "enabled" {
      NumberFieldSize("enabled", Bool(true));
    } else {
      TextFieldSize("publish_credential", s.publishCredential);
    }
  }

  lemma StreamSize(s: Stream)
    requires s.streamId == "stream-1" && s.publishCredential == Repeat('c', 24) && s.enabled
    ensures var list, text := Canonical(Arr(DestinationTexts(s.destinations))), Canonical(StreamText(s));
            TextSize(Utf16, text) <= TextSize(Utf16, list) + 1000 && TextSize(Utf8, text) >= TextSize(Utf8, list)
  {
    hide FieldSize, Canonical, TextSize, DestinationTexts;
    var f := StreamText(s).fields;
    assert f.Keys == {"stream_id", "publish_credential", "enabled", "destinations"};
    forall k | k in f && k != "destinations" ensures FieldSize(Utf16, k, f[k]) <= 150 {
      SmallStreamField(s, k);
    }
    KeySize("destinations");
    FieldHoldsValue("destinations", f["destinations"]);
    OneLargeField(f, "destinations", 150);
    StreamKeysCount();
  }

  /** What the payloads of the sample have in common. */
  ghost predicate IsSample(state: DesiredState, x: Setting) {
    && IsSetting(x) && state.schemaVersion == 1 && state.relayId == RELAY && 0 <= state.generation <= 1
    && state.limits == None
  }

  lemma SmallPayloadField(state: DesiredState, x: Setting, k: string)
    requires IsSample(state, x) && k in V1_KEYS && k != "streams"
    ensures var f := PayloadFor(state, x).fields; k in f && FieldSize(Utf16, k, f[k]) <= 150
  {
    hide FieldSize, StreamTexts, PayloadText;
    PayloadFields(state, x.issued, x.expires);
    if k == "schema_version" {
      NumberFieldSize(k, Num(1));
    } else if k == "generation" {
      NumberFieldSize(k, Num(state.generation));
    } else if k == "relay_id" {
      TextFieldSize(k, RELAY);
    } else if k == "issued_at" {
      TextFieldSize(k, x.issued);
    } else {
      TextFieldSize(k, x.expires);
    }
  }

  lemma PayloadSize(state: DesiredState, x: Setting)
    requires IsSample(state, x)
    ensures var list, text := Canonical(Arr(StreamTexts(state.streams))), Canonical(PayloadFor(state, x));
            TextSize(Utf16, text) <= TextSize(Utf16, list) + 1000 && TextSize(Utf8, text) >= TextSize(Utf8, list)
  {
    hide FieldSize, Canonical, TextSize, StreamTexts, PayloadText;
    var f := PayloadFor(state, x).fields;
    PayloadKeys(state, x.issued, x.expires);
    PayloadFields(state, x.issued, x.expires);
    forall k | k in f && k != "streams" ensures FieldSize(Utf16, k, f[k]) <= 150 {
      SmallPayloadField(state, x, k);
    }
    KeySize("streams");
    FieldHoldsValue("streams", f["streams"]);
    OneLargeField(f, "streams", 150);
    PayloadKeysCount();
  }

  lemma EnvelopeSize(state: DesiredState, x: Setting)
    requires IsSetting(x)
    ensures var payload, text := Canonical(PayloadFor(state, x)), Canonical(EnvelopeFor(state, x));
            TextSize(Utf16, text) <= TextSize(Utf16, payload) + 2000 && TextSize(Utf8, text) >= TextSize(Utf8, payload)
  {
    hide FieldSize, Canonical, TextSize, PayloadFor, Quoted;
    var payload := PayloadFor(state, x);
    var f := EnvelopeFor(state, x).fields;
    assert f.Keys == {"payload", "signature"};
    var signature := x.mac(Canonical(payload));
    QuotedAtMost(signature);
    StrSize(Utf16, signature);
    KeySize("signature");
    FieldHoldsValue("signature", Str(signature));
    KeySize("payload");
    FieldHoldsValue("payload", payload);
    OneLargeField(f, "payload", 1300);
    assert |f.Keys| == 2;
  }

  lemma OneItemSize(e: Encoding, v: Json)
    ensures TextSize(e, Canonical(Arr([v]))) == TextSize(e, Canonical(v)) + 2 * Unit(e)
  {
    hide Canonical, TextSize;
    ContainerSize(e, Arr([v]));
    assert [v][1..] == [];
  }

  /** In UTF-16 it is a response within the limit, in UTF-8 it is beyond it. */
  lemma WideEnvelopeSize(x: Setting)
    requires IsSetting(x)
    ensures TextSize(Utf16, Canonical(EnvelopeFor(WideState(x), x))) <= MAX_BYTES
    ensures TextSize(Utf8, Canonical(EnvelopeFor(WideState(x), x))) > MAX_BYTES
  {
    hide Canonical, TextSize, EnvelopeFor, PayloadFor, StreamText, WideDestinations;
    EnvelopeSize(WideState(x), x);
    PayloadSize(WideState(x), x);
    assert StreamTexts([WideStream()]) == [StreamText(WideStream())];
    OneItemSize(Utf16, StreamText(WideStream()));
    OneItemSize(Utf8, StreamText(WideStream()));
    StreamSize(WideStream());
    WideListSize();
  }

  lemma SmallEnvelopeSize(x: Setting)
    requires IsSetting(x)
    ensures TextSize(Utf8, Canonical(EnvelopeFor(SmallState(x), x))) <= MAX_BYTES
  {
    hide Canonical, TextSize, EnvelopeFor, PayloadFor;
    EnvelopeSize(SmallState(x), x);
    PayloadSize(SmallState(x), x);
    ContainerSize(Utf16, Arr([]));
    Utf8Against(Canonical(EnvelopeFor(SmallState(x), x)));
  }

  // ---------- the failure ----------

  lemma FetchOf(body: Body, v: Json)
    requires body.text == Canonical(v) && !body.mark && v.Obj? && TextSize(body.encoding, body.text) <= MAX_BYTES
    ensures Fetch(body) == Ok(v)
  {
    RoundTrip(v);
  }

  /** Whatever the library and the signature function are: generation 1 arrives as UTF-16 within the limit of a
      response and is served; after a restart, generation 0 is. */
  lemma RollbackAfterOversizedCache(x: Setting)
    requires IsSetting(x)
    ensures var cfg, now := SampleConfig(x), x.issuedAt;
            var big := Body(Utf16, false, Canonical(EnvelopeFor(WideState(x), x)));
            var small := Body(Utf8, false, Canonical(EnvelopeFor(SmallState(x), x)));
            var middle := Run(cfg, Node(None, None), [Boot(now), Poll(big, now, Completes)]);
            var last := Run(cfg, middle, [Kill(now), Boot(now), Poll(small, now, Completes)]);
            && Served(middle) == Some(WideState(x)) && WideState(x).generation == 1
            && Served(last) == Some(SmallState(x)) && SmallState(x).generation == 0
  {
    hide Canonical, TextSize, PayloadFor, ValidateEnvelope, Fetch, Run, Step;
    var big := Body(Utf16, false, Canonical(EnvelopeFor(WideState(x), x)));
    var small := Body(Utf8, false, Canonical(EnvelopeFor(SmallState(x), x)));
    WideEnvelopeSize(x);
    SmallEnvelopeSize(x);
    FetchOf(big, EnvelopeFor(WideState(x), x));
    FetchOf(small, EnvelopeFor(SmallState(x), x));
    StreamIsStrict(x.lib);
    EnvelopeIsValid(WideState(x), x);
    EnvelopeIsValid(SmallState(x), x);
    OversizedCacheForgets(SampleConfig(x), big, small, x.issuedAt);
  }
}
