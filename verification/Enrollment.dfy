/** Enrollment of a relay: a claim that is created once, and a commit of three files with the identity last. */
module Enrollment {
  import opened Wrappers
  import opened Json
  import opened Models
  import opened AsciiTexts
  import Sizes
  import Urls

  type Fields = map<string, Json>

  /** The address of the manager that the release pins, and checks that are not modelled: whether a text is an
      API URL of that origin, and how many bytes a signing key decodes to. */
  datatype ManagerConfig = ManagerConfig(url: string, sameOrigin: string -> bool, keyBytes: string -> nat)

  const MAX_URL := 2048

  /** A pinned address was checked when the configuration was loaded. */
  type Manager = m: ManagerConfig | |m.url| <= MAX_URL witness ManagerConfig("", _ => false, _ => 0)

  const SECRETS := {"agent_token", "state_signing_key"}
  const IDENTITY_KEYS := {
    "schema_version", "relay_id", "manager_url", "relay_state_url", "telemetry_url", "publish_authorization_url",
    "bootstrap_status_url", "public_host", "srt_port", "rtmp_port", "max_active_models", "quota_bytes",
    "desired_state_schema"}
  const URL_KEYS := {"relay_state_url", "telemetry_url", "publish_authorization_url", "bootstrap_status_url"}

  // ---------- validation ----------

  predicate IsSigningKey(s: string) {
    var body := Urls.StripRight(s, '=');
    IsToken(body, 43, 512) && |s| - |body| <= 2
  }

  predicate IsHost(s: string) {
    0 < |s| <= 253 && forall i | 0 <= i < |s| :: IsTokenChar(s[i]) || s[i] == ':' || s[i] == '.'
  }

  predicate IsWithin(v: Json, least: int, most: int) {
    v.Num? && least <= v.n <= most
  }

  predicate ValidSecrets(f: Fields, m: Manager)
    requires SECRETS <= f.Keys
  {
    && f["agent_token"].Str? && IsToken(f["agent_token"].s, 24, 512)
    && f["state_signing_key"].Str? && IsSigningKey(f["state_signing_key"].s)
    && m.keyBytes(f["state_signing_key"].s) >= 32
  }

  predicate IsApiUrl(v: Json, m: Manager) {
    v.Str? && 0 < |v.s| <= MAX_URL && m.sameOrigin(v.s)
  }

  predicate ValidPublicPart(f: Fields, m: Manager)
    requires IDENTITY_KEYS <= f.Keys
  {
    && EqualsNumber(f["schema_version"], 1)
    && f["relay_id"].Str? && IsUuid(f["relay_id"].s) && Urls.Lower(f["relay_id"].s) == f["relay_id"].s
    && f["manager_url"].Str? && Urls.StripRight(f["manager_url"].s, '/') == m.url
    && (forall k | k in URL_KEYS :: IsApiUrl(f[k], m))
    && f["public_host"].Str? && IsHost(f["public_host"].s)
    && EqualsNumber(f["srt_port"], 8890) && EqualsNumber(f["rtmp_port"], 1935)
    && IsWithin(f["max_active_models"], 1, 100)
    && IsWithin(f["quota_bytes"], 1_000_000_000, 1_000_000_000_000_000_000)
    && (EqualsNumber(f["desired_state_schema"], 1) || EqualsNumber(f["desired_state_schema"], 2))
  }

  predicate ValidBundle(f: Fields, m: Manager) {
    f.Keys == IDENTITY_KEYS + SECRETS && ValidSecrets(f, m) && ValidPublicPart(f, m)
  }

  // ---------- files ----------

  predicate IsSpace(c: char) {
    c == ' ' || '\t' <= c <= '\r' || '\U{1C}' <= c <= '\U{1F}'
  }

  function StripFront(s: string): string {
    if s != "" && IsSpace(s[0]) then StripFront(s[1..]) else s
  }

  function StripEnd(s: string): string {
    if s != "" && IsSpace(s[|s| - 1]) then StripEnd(s[..|s| - 1]) else s
  }

  function Strip(s: string): string {
    StripEnd(StripFront(s))
  }

  lemma StripLine(s: string)
    requires s != "" && !IsSpace(s[0]) && !IsSpace(s[|s| - 1])
    ensures Strip(s + "\n") == s
  {
    var line := s + "\n";
    assert line[0] == s[0] && line[|line| - 1] == '\n';
    assert line[..|line| - 1] == s;
    assert StripEnd(line) == StripEnd(s);
  }

  lemma TokenIsKept(s: string, least: nat, most: nat)
    requires IsToken(s, least, most) && least > 0
    ensures Strip(s + "\n") == s
  {
    assert IsTokenChar(s[0]) && IsTokenChar(s[|s| - 1]);
    StripLine(s);
  }

  lemma SigningKeyIsKept(s: string)
    requires IsSigningKey(s)
    ensures Strip(s + "\n") == s
  {
    var body := Urls.StripRight(s, '=');
    assert IsTokenChar(body[0]) && s[0] == body[0];
    assert IsTokenChar(body[|body| - 1]);
    assert s[|s| - 1] == '=' || s[|s| - 1] == body[|body| - 1];
    StripLine(s);
  }

  /** The text of the identity file. */
  function IdentityText(identity: Fields): string {
    Ascii(Canonical(Obj(identity))) + "\n"
  }

  const MAX_BYTES := 1024 * 1024

  /** An object read from a file of at most 1 MiB. */
  function ReadObject(text: string): Result<Fields> {
    if Sizes.TextSize(Sizes.Utf8, text) > MAX_BYTES then Err(Invalid)
    else
      match Loads(text)
      case Some(Obj(fields)) => Ok(fields)
      case _ => Err(Invalid)
  }

  /** The state directory, with the text of each file. */
  datatype Dir = Dir(claim: Option<string>, token: Option<string>, signingKey: Option<string>, identity: Option<string>)

  const EMPTY := Dir(None, None, None, None)

  predicate IsClaim(s: string) {
    IsToken(s, 22, 128)
  }

  predicate IsPairingCode(s: string) {
    IsToken(s, 12, 256)
  }

  function LoadIdentity(d: Dir, m: Manager): Result<Option<Fields>> {
    if d.identity.None? then Ok(None)
    else
      var identity :- ReadObject(d.identity.value);
      if identity.Keys != IDENTITY_KEYS || !EqualsNumber(identity["schema_version"], 1) then Err(Invalid)
      else if identity["manager_url"] != Str(m.url) then Err(Invalid)
      else if d.token.None? || d.signingKey.None? then Err(Invalid)
      else
        var probe :=
          identity["agent_token" := Str(Strip(d.token.value))]["state_signing_key" := Str(Strip(d.signingKey.value))];
        if ValidBundle(probe, m) then Ok(Some(probe)) else Err(Invalid)
  }

  // ---------- one run ----------

  /** What one run meets: the claim it would create, the code the operator types, and the answer of the manager
      (None when the request fails). `steps` is how many durable effects - atomic writes, and sending the
      request - happen before the run is killed. */
  datatype Run = Run(newClaim: string, code: string, answer: Option<Fields>, steps: nat)

  datatype Outcome = Reused(bundle: Fields) | Enrolled(bundle: Fields) | Failed | Died

  /** The directory after a run, the claim it sent, if any, and how it ended. */
  datatype After = After(dir: Dir, sent: Option<string>, outcome: Outcome)

  function Enroll(d: Dir, m: Manager, run: Run): After {
    match LoadIdentity(d, m)
    case Err(_) => After(d, None, Failed)
    case Ok(Some(bundle)) => After(d, None, Reused(bundle))
    case Ok(None) =>
      if d.claim.Some? then WithClaim(d, m, run, Strip(d.claim.value), run.steps)
      else if run.steps == 0 then After(d, None, Died)
      else WithClaim(d.(claim := Some(run.newClaim + "\n")), m, run, run.newClaim, run.steps - 1)
  }

  function WithClaim(d: Dir, m: Manager, run: Run, claim: string, steps: nat): After {
    if !IsClaim(claim) || !IsPairingCode(run.code) then After(d, None, Failed)
    else if steps == 0 then After(d, None, Died)
    else if run.answer.None? || !ValidBundle(run.answer.value, m) then After(d, Some(claim), Failed)
    else After(Commit(d, run.answer.value, steps - 1), Some(claim),
               if steps - 1 < 3 then Died else Enrolled(run.answer.value))
  }

  function PublicPart(bundle: Fields): Fields {
    bundle - SECRETS
  }

  /** The files after the first `steps` of the three writes. */
  function Commit(d: Dir, bundle: Fields, steps: nat): Dir
    requires SECRETS <= bundle.Keys && bundle["agent_token"].Str? && bundle["state_signing_key"].Str?
  {
    var d1 := if steps >= 1 then d.(token := Some(bundle["agent_token"].s + "\n")) else d;
    var d2 := if steps >= 2 then d1.(signingKey := Some(bundle["state_signing_key"].s + "\n")) else d1;
    if steps >= 3 then d2.(identity := Some(IdentityText(PublicPart(bundle)))) else d2
  }

  // ---------- histories ----------

  /** Runs one after the other, each killed wherever its number of steps says. */
  function Runs(d: Dir, m: Manager, runs: seq<Run>): Dir {
    if runs == [] then d else Enroll(Runs(d, m, runs[..|runs| - 1]), m, runs[|runs| - 1]).dir
  }

  function Sent(d: Dir, m: Manager, runs: seq<Run>): seq<string> {
    if runs == [] then []
    else
      var front := runs[..|runs| - 1];
      var last := Enroll(Runs(d, m, front), m, runs[|runs| - 1]).sent;
      Sent(d, m, front) + if last.Some? then [last.value] else []
  }

  lemma ClaimIsNeverReplaced(d: Dir, m: Manager, run: Run)
    ensures var after := Enroll(d, m, run);
            && (d.claim.Some? ==> after.dir.claim == d.claim)
            && (after.sent.Some? ==> after.dir.claim.Some? && after.sent.value == Strip(after.dir.claim.value))
  {
    if IsClaim(run.newClaim) {
      TokenIsKept(run.newClaim, 22, 128);
    }
  }

  lemma {:induction false} ClaimsSentAreOnDisk(m: Manager, runs: seq<Run>)
    ensures var d := Runs(EMPTY, m, runs);
            forall c | c in Sent(EMPTY, m, runs) :: d.claim.Some? && c == Strip(d.claim.value)
  {
    if runs != [] {
      var front := runs[..|runs| - 1];
      ClaimsSentAreOnDisk(m, front);
      ClaimIsNeverReplaced(Runs(EMPTY, m, front), m, runs[|runs| - 1]);
    }
  }

  /** Over all runs together, whatever they meet and wherever they are killed, one claim at most is sent. */
  lemma OneClaimIsSent(m: Manager, runs: seq<Run>, i: nat, j: nat)
    requires i < |Sent(EMPTY, m, runs)| && j < |Sent(EMPTY, m, runs)|
    ensures Sent(EMPTY, m, runs)[i] == Sent(EMPTY, m, runs)[j]
    ensures IsClaim(Sent(EMPTY, m, runs)[i])
  {
    ClaimsSentAreOnDisk(m, runs);
    var sent := Sent(EMPTY, m, runs);
    assert sent[i] in sent && sent[j] in sent;
    SentAreClaims(m, runs);
  }

  lemma {:induction false} SentAreClaims(m: Manager, runs: seq<Run>)
    ensures forall c | c in Sent(EMPTY, m, runs) :: IsClaim(c)
  {
    if runs != [] {
      SentAreClaims(m, runs[..|runs| - 1]);
    }
  }

  // ---------- the commit ----------

  /** The three files hold the parts of one validated bundle. */
  ghost predicate Committed(d: Dir, m: Manager, bundle: Fields) {
    && ValidBundle(bundle, m)
    && d.identity == Some(IdentityText(PublicPart(bundle)))
    && d.token == Some(bundle["agent_token"].s + "\n")
    && d.signingKey == Some(bundle["state_signing_key"].s + "\n")
  }

  /** If there is an identity file at all, the directory is committed. */
  ghost predicate CommittedIfPresent(d: Dir, m: Manager) {
    d.identity.Some? ==> exists bundle :: Committed(d, m, bundle)
  }

  /** A run never writes anything once the identity file is there. */
  lemma IdentityFreezesTheDirectory(d: Dir, m: Manager, run: Run)
    requires d.identity.Some?
    ensures Enroll(d, m, run).dir == d && Enroll(d, m, run).sent == None
    ensures !Enroll(d, m, run).outcome.Enrolled? && !Enroll(d, m, run).outcome.Died?
  {
  }

  lemma CommitIsCommitted(d: Dir, m: Manager, bundle: Fields, steps: nat)
    requires ValidBundle(bundle, m) && d.identity.None?
    ensures Commit(d, bundle, steps).identity.Some? <==> steps >= 3
    ensures steps >= 3 ==> Committed(Commit(d, bundle, steps), m, bundle)
  {
  }

  lemma RunKeepsCommitted(d: Dir, m: Manager, run: Run)
    requires CommittedIfPresent(d, m)
    ensures CommittedIfPresent(Enroll(d, m, run).dir, m)
    ensures Enroll(d, m, run).outcome.Enrolled? ==> Committed(Enroll(d, m, run).dir, m, run.answer.value)
  {
    if d.identity.Some? {
      IdentityFreezesTheDirectory(d, m, run);
    } else if run.answer.Some? && ValidBundle(run.answer.value, m) {
      var start := if d.claim.Some? then d else d.(claim := Some(run.newClaim + "\n"));
      var used := if d.claim.Some? then 1 else 2;
      if run.steps >= used {
        CommitIsCommitted(start, m, run.answer.value, run.steps - used);
      }
    }
  }

  /** Over all runs, wherever they are killed: an identity file means that it and both credential files come
      from one bundle that was validated. */
  lemma {:induction false} IdentityMeansCommitted(m: Manager, runs: seq<Run>)
    ensures CommittedIfPresent(Runs(EMPTY, m, runs), m)
  {
    if runs != [] {
      IdentityMeansCommitted(m, runs[..|runs| - 1]);
      RunKeepsCommitted(Runs(EMPTY, m, runs[..|runs| - 1]), m, runs[|runs| - 1]);
    }
  }

  // ---------- the identity file is read back ----------

  function Power(d: nat): nat {
    if d == 0 then 1 else 10 * Power(d - 1)
  }

  lemma {:induction false} NatTextAtMost(n: nat, d: nat)
    requires d >= 1 && n < Power(d)
    ensures |NatText(n)| <= d
  {
    if n >= 10 {
      NatTextAtMost(n / 10, d - 1);
    }
  }

  lemma PowerSplits(a: nat, b: nat)
    ensures Power(a + b) == Power(a) * Power(b)
  {
    if a > 0 {
      PowerSplits(a - 1, b);
    }
  }

  lemma PowerOfNineteen()
    ensures Power(19) == 10_000_000_000_000_000_000
  {
    assert Power(3) == 1000;
    PowerSplits(3, 3);
    PowerSplits(6, 6);
    PowerSplits(12, 6);
    assert Power(19) == 10 * Power(18);
  }

  lemma NumberLength(v: Json)
    requires v.Bool? || (v.Num? && 0 <= v.n <= 1_000_000_000_000_000_000)
    ensures |Ascii(Canonical(v))| <= 300
  {
    hide Ascii;
    if v.Num? {
      PowerOfNineteen();
      NatTextAtMost(v.n, 19);
    }
    AsciiLength(Canonical(v));
  }

  lemma TextLength(s: string)
    ensures |Ascii(Canonical(Str(s)))| <= 12 * |s| + 2
  {
    hide Ascii;
    AsciiOfSum("\"", Quoted(s));
    AsciiOfPrintable("\"");
    QuotedLength(s);
  }

  const TEXT_KEYS := URL_KEYS + {"manager_url", "relay_id", "public_host"}

  lemma IdentityTextField(f: Fields, m: Manager, k: string)
    requires IDENTITY_KEYS <= f.Keys && ValidPublicPart(f, m) && f["manager_url"] == Str(m.url) && k in TEXT_KEYS
    ensures k in f && f[k].Str? && |f[k].s| <= MAX_URL
  {
    hide IsUuid, Urls.Lower, Urls.StripRight;
    if k == "relay_id" {
      UuidLength(f[k].s);
    }
  }

  lemma IdentityNumberField(f: Fields, m: Manager, k: string)
    requires IDENTITY_KEYS <= f.Keys && ValidPublicPart(f, m) && k in IDENTITY_KEYS - TEXT_KEYS
    ensures f[k].Bool? || (f[k].Num? && 0 <= f[k].n <= 1_000_000_000_000_000_000)
  {
    hide IsUuid, Urls.Lower, Urls.StripRight;
  }

  /** Each member of a valid identity takes at most 25000 characters. */
  lemma IdentityFieldLength(f: Fields, m: Manager, k: string)
    requires IDENTITY_KEYS <= f.Keys && ValidPublicPart(f, m) && f["manager_url"] == Str(m.url) && k in IDENTITY_KEYS
    ensures FieldLength(k, f[k]) <= 25_000
  {
    hide Ascii, Canonical, ValidPublicPart;
    QuotedLength(k);
    IdentityKeyLength(k);
    if k in TEXT_KEYS {
      IdentityTextField(f, m, k);
      TextLength(f[k].s);
    } else {
      IdentityNumberField(f, m, k);
      NumberLength(f[k]);
    }
  }

  lemma UuidLength(s: string)
    requires IsUuid(s)
    ensures |s| == 36
  {
  }

  lemma IdentityKeyLength(k: string)
    requires k in IDENTITY_KEYS
    ensures |k| <= 25
  {
  }

  lemma IdentityKeysCount()
    ensures |IDENTITY_KEYS| == 13
  {
  }

  lemma AsciiLineSize(s: string)
    ensures Sizes.TextSize(Sizes.Utf8, Ascii(s) + "\n") == |Ascii(s)| + 1
  {
    hide Ascii, Sizes.TextSize;
    AsciiIsPrintable(s);
    Sizes.SizeBounds(Sizes.Utf8, Ascii(s) + "\n");
  }

  /** Escapes make the file longer than the answer that it comes from, but never too long to be read again. */
  lemma IdentityFits(identity: Fields, m: Manager)
    requires identity.Keys == IDENTITY_KEYS && ValidPublicPart(identity, m) && identity["manager_url"] == Str(m.url)
    ensures Sizes.TextSize(Sizes.Utf8, IdentityText(identity)) <= MAX_BYTES
  {
    hide Ascii, Canonical, ValidPublicPart, FieldLength, Sizes.TextSize;
    forall k | k in identity ensures FieldLength(k, identity[k]) <= 25_000 {
      IdentityFieldLength(identity, m, k);
    }
    IdentityKeysCount();
    assert identity != map[];
    ObjectLength(identity, 25_000);
    AsciiLineSize(Canonical(Obj(identity)));
  }

  lemma IdentityIsReadBack(identity: Fields)
    ensures ReadObject(IdentityText(identity)) ==
            if Sizes.TextSize(Sizes.Utf8, IdentityText(identity)) <= MAX_BYTES then Ok(identity) else Err(Invalid)
  {
    hide Ascii, Canonical, Loads;
    AsciiLineRoundTrip(Obj(identity));
  }

  lemma PublicPartIsValid(bundle: Fields, m: Manager)
    requires ValidBundle(bundle, m)
    ensures PublicPart(bundle).Keys == IDENTITY_KEYS && ValidPublicPart(PublicPart(bundle), m)
    ensures PublicPart(bundle)["manager_url"] == bundle["manager_url"]
    ensures PublicPart(bundle)["schema_version"] == bundle["schema_version"]
  {
    hide IsUuid, IsHost, Urls.Lower, Urls.StripRight;
    var f := PublicPart(bundle);
    assert f.Keys == IDENTITY_KEYS;
    assert forall k | k in IDENTITY_KEYS :: f[k] == bundle[k];
  }

  /** A committed directory gives the bundle back exactly when the bundle names the manager as it is pinned, to the
      letter. Validation alone also lets slashes at the end pass, and then loading is refused for good. */
  lemma CommittedLoadsExactly(d: Dir, m: Manager, bundle: Fields)
    requires Committed(d, m, bundle)
    ensures LoadIdentity(d, m) == Ok(Some(bundle)) <==> bundle["manager_url"] == Str(m.url)
    ensures bundle["manager_url"] != Str(m.url) ==> LoadIdentity(d, m) == Err(Invalid)
  {
    hide ReadObject, ValidPublicPart, IsSigningKey, Strip, IsToken, EqualsNumber, Sizes.TextSize, IdentityText;
    var identity := PublicPart(bundle);
    PublicPartIsValid(bundle, m);
    IdentityIsReadBack(identity);
    if bundle["manager_url"] == Str(m.url) {
      IdentityFits(identity, m);
    }
    TokenIsKept(bundle["agent_token"].s, 24, 512);
    SigningKeyIsKept(bundle["state_signing_key"].s);
    ProbeIsBundle(bundle);
    SchemaOfBundle(bundle, m);
  }

  lemma SchemaOfBundle(bundle: Fields, m: Manager)
    requires ValidBundle(bundle, m)
    ensures EqualsNumber(bundle["schema_version"], 1)
  {
  }

  lemma ProbeIsBundle(bundle: Fields)
    requires bundle.Keys == IDENTITY_KEYS + SECRETS
    requires bundle["agent_token"].Str? && bundle["state_signing_key"].Str?
    ensures PublicPart(bundle)["agent_token" := Str(bundle["agent_token"].s)]
              ["state_signing_key" := Str(bundle["state_signing_key"].s)] == bundle
  {
    var token, key := bundle["agent_token"], bundle["state_signing_key"];
    assert token == Str(token.s) && key == Str(key.s);
  }

  /** A committed directory stays as it is, whatever runs follow, and under the condition above each of them
      returns its bundle and sends nothing. */
  lemma {:induction false} CommittedIsForGood(d: Dir, m: Manager, bundle: Fields, later: seq<Run>, again: Run)
    requires Committed(d, m, bundle)
    ensures Runs(d, m, later) == d && Sent(d, m, later) == []
    ensures bundle["manager_url"] == Str(m.url) ==> Enroll(d, m, again) == After(d, None, Reused(bundle))
    decreases |later|
  {
    CommittedLoadsExactly(d, m, bundle);
    if later != [] {
      CommittedIsForGood(d, m, bundle, later[..|later| - 1], again);
      IdentityFreezesTheDirectory(d, m, later[|later| - 1]);
    }
  }

  /** Once any run of any history has enrolled, every later run returns that bundle and writes nothing. */
  lemma EnrollmentIsIdempotent(m: Manager, before: seq<Run>, run: Run, later: seq<Run>, again: Run)
    requires Enroll(Runs(EMPTY, m, before), m, run).outcome.Enrolled?
    requires run.answer.Some? && "manager_url" in run.answer.value && run.answer.value["manager_url"] == Str(m.url)
    ensures var d := Enroll(Runs(EMPTY, m, before), m, run).dir;
            && Runs(d, m, later) == d && Sent(d, m, later) == []
            && Enroll(d, m, again) == After(d, None, Reused(run.answer.value))
  {
    IdentityMeansCommitted(m, before);
    RunKeepsCommitted(Runs(EMPTY, m, before), m, run);
    CommittedIsForGood(Enroll(Runs(EMPTY, m, before), m, run).dir, m, run.answer.value, later, again);
  }

  // ---------- what is sent and what is accepted ----------

  /** What the release demands of the members that are no secrets, each by itself. */
  predicate IsFitAnswer(bundle: Fields, m: Manager) {
    && (forall k | k in {"relay_state_url", "telemetry_url", "publish_authorization_url", "bootstrap_status_url"} ::
          k in bundle && bundle[k].Str? && 1 <= |bundle[k].s| <= 2048 && m.sameOrigin(bundle[k].s))
    && "manager_url" in bundle && bundle["manager_url"].Str? && IsSpellingOf(bundle["manager_url"].s, m.url)
    && "srt_port" in bundle && EqualsNumber(bundle["srt_port"], 8890)
    && "rtmp_port" in bundle && EqualsNumber(bundle["rtmp_port"], 1935)
    && "max_active_models" in bundle && bundle["max_active_models"].Num? && 1 <= bundle["max_active_models"].n <= 100
    && "quota_bytes" in bundle && bundle["quota_bytes"].Num?
    && 1_000_000_000 <= bundle["quota_bytes"].n <= 1_000_000_000_000_000_000
    && "relay_id" in bundle && bundle["relay_id"].Str? && IsUuid(bundle["relay_id"].s)
    && Urls.Lower(bundle["relay_id"].s) == bundle["relay_id"].s
    && "public_host" in bundle && bundle["public_host"].Str? && 1 <= |bundle["public_host"].s| <= 253
    && (forall i | 0 <= i < |bundle["public_host"].s| ::
          IsTokenChar(bundle["public_host"].s[i]) || bundle["public_host"].s[i] in ":.")
    && "schema_version" in bundle && EqualsNumber(bundle["schema_version"], 1)
    && "desired_state_schema" in bundle
    && (EqualsNumber(bundle["desired_state_schema"], 1) || EqualsNumber(bundle["desired_state_schema"], 2))
  }

  /** The address itself, with any number of slashes behind it. */
  predicate IsSpellingOf(text: string, url: string) {
    && url <= text && (url == "" || url[|url| - 1] != '/')
    && forall i | |url| <= i < |text| :: text[i] == '/'
  }

  /** Secrets: a token, and a signing key of 32 bytes or more with at most two signs of padding. */
  ghost predicate HasFitSecrets(bundle: Fields, m: Manager) {
    && "agent_token" in bundle && bundle["agent_token"].Str? && IsToken(bundle["agent_token"].s, 24, 512)
    && "state_signing_key" in bundle && bundle["state_signing_key"].Str?
    && m.keyBytes(bundle["state_signing_key"].s) >= 32
    && exists n: nat :: IsPadded(bundle["state_signing_key"].s, n)
  }

  /** The last n characters, two at most, are padding. */
  predicate IsPadded(s: string, n: nat) {
    n <= 2 && n <= |s| && IsToken(s[..|s| - n], 43, 512) && forall i | |s| - n <= i < |s| :: s[i] == '='
  }

  lemma StripRightIsExact(text: string, c: char, url: string)
    ensures Urls.StripRight(text, c) == url <==>
            && url <= text && (url == "" || url[|url| - 1] != c)
            && forall i | |url| <= i < |text| :: text[i] == c
  {
    hide Urls.StripRight;
    var kept := Urls.StripRight(text, c);
    if url <= text && (url == "" || url[|url| - 1] != c) && forall i | |url| <= i < |text| :: text[i] == c {
      assert kept != "" ==> text[|kept| - 1] == kept[|kept| - 1] != c;
      assert url != "" ==> text[|url| - 1] == url[|url| - 1] != c;
      assert url == text[..|url|] && kept == text[..|kept|];
    }
  }

  lemma SigningKeyIsExact(s: string)
    ensures IsSigningKey(s) <==> exists n: nat :: IsPadded(s, n)
  {
    hide Urls.StripRight;
    var body := Urls.StripRight(s, '=');
    if IsSigningKey(s) {
      var n: nat := |s| - |body|;
      assert s[..|s| - n] == body;
      assert IsPadded(s, n);
    }
    if n: nat :| IsPadded(s, n) {
      var url := s[..|s| - n];
      assert IsTokenChar(url[|url| - 1]);
      StripRightIsExact(s, '=', url);
    }
  }

  lemma SecretsAreExact(bundle: Fields, m: Manager)
    requires SECRETS <= bundle.Keys
    ensures ValidSecrets(bundle, m) <==> HasFitSecrets(bundle, m)
  {
    hide IsSigningKey, IsPadded, IsToken;
    if bundle["state_signing_key"].Str? {
      SigningKeyIsExact(bundle["state_signing_key"].s);
    }
  }

  /** An answer is accepted exactly when it has these members and no other, addresses of the pinned origin, the ports of
      the release, numbers within its limits, and secrets of their form. */
  lemma AcceptedBundlesAreExact(bundle: Fields, m: Manager)
    ensures ValidBundle(bundle, m) <==>
            && bundle.Keys == IDENTITY_KEYS + SECRETS && IsFitAnswer(bundle, m) && HasFitSecrets(bundle, m)
  {
    hide ValidPublicPart, ValidSecrets, IsFitAnswer, HasFitSecrets;
    if bundle.Keys == IDENTITY_KEYS + SECRETS {
      PublicPartIsExact(bundle, m);
      SecretsAreExact(bundle, m);
    }
  }

  lemma PublicPartIsExact(bundle: Fields, m: Manager)
    requires IDENTITY_KEYS <= bundle.Keys
    ensures ValidPublicPart(bundle, m) <==> IsFitAnswer(bundle, m)
  {
    hide IsUuid, IsTokenChar, Urls.Lower, Urls.StripRight;
    if bundle["manager_url"].Str? {
      StripRightIsExact(bundle["manager_url"].s, '/', m.url);
    }
  }

  /** The claim that a run works with: the one on disk, or the new one when it lives long enough to write it. */
  function ClaimOf(d: Dir, run: Run): string {
    if d.claim.Some? then Strip(d.claim.value) else run.newClaim
  }

  /** How many durable effects come before the request. */
  function BeforeRequest(d: Dir): nat {
    if d.claim.Some? then 0 else 1
  }

  /** A request is sent exactly when there is no identity file, claim and pairing code have their form, and the run
      lives to send it; it carries that claim. */
  lemma SendsExactly(d: Dir, m: Manager, run: Run)
    ensures var sent := Enroll(d, m, run).sent;
            && (sent.Some? <==>
                  && d.identity.None? && IsToken(ClaimOf(d, run), 22, 128) && IsToken(run.code, 12, 256)
                  && run.steps > BeforeRequest(d))
            && (sent.Some? ==> sent.value == ClaimOf(d, run))
  {
    hide ValidBundle, ReadObject, Strip;
  }

  /** A run enrolls exactly when it sends, the answer is a valid bundle, and it lives to write three more files. */
  lemma EnrollsExactly(d: Dir, m: Manager, run: Run, bundle: Fields)
    ensures Enroll(d, m, run).outcome == Enrolled(bundle) <==>
            && Enroll(d, m, run).sent.Some? && run.answer == Some(bundle) && ValidBundle(bundle, m)
            && run.steps >= BeforeRequest(d) + 4
  {
    hide ReadObject, Strip, ValidSecrets, ValidPublicPart;
  }

  // ---------- the condition is needed ----------

  /** What a manager answers that names itself with a slash at the end, apart from its secrets. */
  function SlashedPublic(): Fields {
    map["schema_version" := Num(1), "relay_id" := Str(SAMPLE_ID),
        "manager_url" := Str("https://m/"), "relay_state_url" := Str("https://m/api/state"),
        "telemetry_url" := Str("https://m/api/telemetry"),
        "publish_authorization_url" := Str("https://m/api/auth"), "bootstrap_status_url" := Str("https://m/api/status"),
        "public_host" := Str("h"), "srt_port" := Num(8890), "rtmp_port" := Num(1935), "max_active_models" := Num(15),
        "quota_bytes" := Num(32_000_000_000_000), "desired_state_schema" := Num(1)]
  }

  function SlashedSecrets(): Fields {
    map["agent_token" := Str(seq(24, _ => 'A')), "state_signing_key" := Str(seq(43, _ => 'S'))]
  }

  function SlashedManager(): Manager {
    ManagerConfig("https://m", _ => true, _ => 32)
  }

  lemma SlashedUrlsAreValid()
    ensures forall k | k in URL_KEYS :: k in SlashedPublic() && IsApiUrl(SlashedPublic()[k], SlashedManager())
  {
  }

  lemma SlashedPublicIsValid()
    ensures SlashedPublic().Keys == IDENTITY_KEYS && ValidPublicPart(SlashedPublic(), SlashedManager())
    ensures SlashedPublic()["manager_url"] == Str("https://m/")
  {
    hide IsUuid, IsApiUrl, IsHost, Urls.Lower, Urls.StripRight;
    var f := SlashedPublic();
    assert f.Keys == IDENTITY_KEYS;
    SlashedUrlsAreValid();
    SlashIsStripped();
    SampleIdIsUuid();
    SampleIdIsLower();
    SampleHostIsHost();
  }

  lemma SlashIsStripped()
    ensures Urls.StripRight("https://m/", '/') == "https://m"
  {
    assert "https://m/"[..9] == "https://m";
  }

  lemma SampleHostIsHost()
    ensures IsHost("h")
  {
  }

  const SAMPLE_ID := "11111111-2222-4333-8444-555555555555"

  lemma SampleIdIsLower()
    ensures Urls.Lower(SAMPLE_ID) == SAMPLE_ID
  {
    assert forall i | 0 <= i < |SAMPLE_ID| :: SAMPLE_ID[i] == '-' || '0' <= SAMPLE_ID[i] <= '9';
  }

  lemma SampleIdIsUuid()
    ensures IsUuid(SAMPLE_ID)
  {
  }

  lemma SlashedSecretsAreValid()
    ensures SlashedSecrets().Keys == SECRETS && ValidSecrets(SlashedSecrets(), SlashedManager())
  {
    var key := SlashedSecrets()["state_signing_key"].s;
    assert key[|key| - 1] == 'S';
    assert Urls.StripRight(key, '=') == key;
  }

  lemma JoinedPartsAreValid(public: Fields, secrets: Fields, m: Manager)
    requires public.Keys == IDENTITY_KEYS && ValidPublicPart(public, m)
    requires secrets.Keys == SECRETS && ValidSecrets(secrets, m)
    ensures ValidBundle(public + secrets, m) && (public + secrets)["manager_url"] == public["manager_url"]
  {
    var f := public + secrets;
    assert forall k | k in IDENTITY_KEYS :: k !in SECRETS && f[k] == public[k];
    assert forall k | k in SECRETS :: f[k] == secrets[k];
  }

  /** Once any run of any history has enrolled with an address that only differs by slashes, every later run fails,
      and writes and sends nothing. */
  lemma OtherSpellingBlocksLaterRuns(m: Manager, before: seq<Run>, run: Run, later: seq<Run>, again: Run)
    requires Enroll(Runs(EMPTY, m, before), m, run).outcome.Enrolled?
    requires run.answer.value["manager_url"] != Str(m.url)
    ensures var d := Enroll(Runs(EMPTY, m, before), m, run).dir;
            && Runs(d, m, later) == d && Sent(d, m, later) == []
            && Enroll(Runs(d, m, later), m, again) == After(d, None, Failed)
  {
    hide ReadObject, IdentityText, ValidSecrets, ValidPublicPart, Commit, Strip;
    IdentityMeansCommitted(m, before);
    RunKeepsCommitted(Runs(EMPTY, m, before), m, run);
    var d := Enroll(Runs(EMPTY, m, before), m, run).dir;
    CommittedIsForGood(d, m, run.answer.value, later, again);
    CommittedLoadsExactly(d, m, run.answer.value);
  }

  lemma FreshRunEnrolls(m: Manager, run: Run)
    requires IsClaim(run.newClaim) && IsPairingCode(run.code) && run.steps == 5
    requires run.answer.Some? && ValidBundle(run.answer.value, m)
    ensures Enroll(EMPTY, m, run).outcome == Enrolled(run.answer.value)
  {
  }

  lemma BlockedAfter(public: Fields, secrets: Fields, m: Manager, first: Run, later: seq<Run>, again: Run)
    requires public.Keys == IDENTITY_KEYS && ValidPublicPart(public, m)
    requires secrets.Keys == SECRETS && ValidSecrets(secrets, m)
    requires public["manager_url"] != Str(m.url)
    requires IsClaim(first.newClaim) && IsPairingCode(first.code) && first.steps == 5
    requires first.answer == Some(public + secrets)
    ensures var after := Enroll(EMPTY, m, first);
            after.outcome.Enrolled? && Enroll(Runs(after.dir, m, later), m, again) == After(after.dir, None, Failed)
  {
    JoinedPartsAreValid(public, secrets, m);
    FreshRunEnrolls(m, first);
    assert Runs(EMPTY, m, []) == EMPTY;
    OtherSpellingBlocksLaterRuns(m, [], first, later, again);
  }

  /** The concrete failure: the first run enrolls, and every later run fails without writing anything. */
  lemma SlashBlocksLaterRuns(later: seq<Run>, again: Run)
    ensures var m := SlashedManager();
            var first := Run(seq(32, _ => 'c'), seq(12, _ => 'p'), Some(SlashedPublic() + SlashedSecrets()), 5);
            var after := Enroll(EMPTY, m, first);
            after.outcome.Enrolled? && Enroll(Runs(after.dir, m, later), m, again) == After(after.dir, None, Failed)
  {
    var first := Run(seq(32, _ => 'c'), seq(12, _ => 'p'), Some(SlashedPublic() + SlashedSecrets()), 5);
    SlashedPublicIsValid();
    SlashedSecretsAreValid();
    BlockedAfter(SlashedPublic(), SlashedSecrets(), SlashedManager(), first, later, again);
  }

  // ---------- the client ----------

  /** The state directory as the installer works on it, and the claims it sent. */
  class Installer {
    var claim: Option<string>
    var token: Option<string>
    var signingKey: Option<string>
    var identity: Option<string>
    const manager: Manager

    constructor (d: Dir, manager: Manager)
      ensures View() == d && this.manager == manager
    {
      claim, token, signingKey, identity := d.claim, d.token, d.signingKey, d.identity;
      this.manager := manager;
    }

    function View(): Dir
      reads this
    {
      Dir(claim, token, signingKey, identity)
    }

    /** The three writes, in the order that makes the identity the last one. */
    method CommitBundle(bundle: Fields, steps: nat) returns (died: bool)
      requires ValidBundle(bundle, manager)
      modifies this`token, this`signingKey, this`identity
      ensures View() == Commit(old(View()), bundle, steps)
      ensures died <==> steps < 3
    {
      if steps == 0 {
        return true;
      }
      token := Some(bundle["agent_token"].s + "\n");
      if steps == 1 {
        return true;
      }
      signingKey := Some(bundle["state_signing_key"].s + "\n");
      if steps == 2 {
        return true;
      }
      var publicIdentity := map k | k in bundle && k !in SECRETS :: bundle[k];
      assert publicIdentity == PublicPart(bundle);
      identity := Some(IdentityText(publicIdentity));
      return false;
    }

    method EnrollOnce(run: Run) returns (sent: Option<string>, outcome: Outcome)
      modifies this
      ensures After(View(), sent, outcome) == Enroll(old(View()), manager, run)
    {
      sent := None;
      var existing := LoadIdentity(View(), manager);
      if existing.Err? {
        return None, Failed;
      }
      if existing.value.Some? {
        return None, Reused(existing.value.value);
      }
      var steps := run.steps;
      var claimId;
      if claim.Some? {
        claimId := Strip(claim.value);
      } else {
        if steps == 0 {
          return None, Died;
        }
        steps := steps - 1;
        claimId := run.newClaim;
        claim := Some(claimId + "\n");
      }
      if !IsClaim(claimId) || !IsPairingCode(run.code) {
        return None, Failed;
      }
      if steps == 0 {
        return None, Died;
      }
      steps := steps - 1;
      sent := Some(claimId);
      if run.answer.None? || !ValidBundle(run.answer.value, manager) {
        return sent, Failed;
      }
      var died := CommitBundle(run.answer.value, steps);
      return sent, if died then Died else Enrolled(run.answer.value);
    }
  }
}
