/** The signed desired-state store: what it accepts, what it keeps in its cache file, and what it can serve
    after a crash and a restart. */
module StateStores {
  import opened Wrappers
  import opened Json
  import opened Models
  import opened Sizes

  /** `mac` is the signature text that the shared key gives to a canonical text, `parse` the strict parser of
      payloads. The protocol itself needs nothing more of either. */
  datatype Config = Config(mac: string -> string, parse: map<string, Json> -> Result<DesiredState>)

  /** The configuration of one relay. */
  function RelayConfig(relayId: string, mac: string -> string, lib: Library): Config {
    Config(mac, payload => ParseState(payload, relayId, lib))
  }

  /** A parser for which the timestamps are independent of the rest. */
  ghost predicate ParsesContent(cfg: Config) {
    forall p, q :: cfg.parse(p).Ok? && cfg.parse(q).Ok? && WithoutTimestamps(p) == WithoutTimestamps(q) ==>
      SameContent(cfg.parse(p).value, cfg.parse(q).value)
  }

  lemma RelayParsesContent(relayId: string, mac: string -> string, lib: Library)
    ensures ParsesContent(RelayConfig(relayId, mac, lib))
  {
    var cfg := RelayConfig(relayId, mac, lib);
    forall p, q | cfg.parse(p).Ok? && cfg.parse(q).Ok? && WithoutTimestamps(p) == WithoutTimestamps(q)
      ensures SameContent(cfg.parse(p).value, cfg.parse(q).value)
    {
      SamePayloadSameContent(p, q, relayId, lib);
    }
  }

  const SKEW := 120_000_000
  const MAX_BYTES := 4 * 1024 * 1024

  // ---------- fetching ----------

  /** The body of a response: text in an encoding that the decoder recognises, maybe behind a byte order mark. */
  datatype Body = Body(encoding: Encoding, mark: bool, text: string)

  function BodySize(body: Body): nat {
    TextSize(body.encoding, body.text) + if body.mark then TextSize(body.encoding, "\U{FEFF}") else 0
  }

  /** What the client makes of a response: an object of at most 4 MiB, or the error that the state loop handles. */
  function Fetch(body: Body): Result<Json> {
    if BodySize(body) > MAX_BYTES then Err(Invalid)
    else
      match Loads(body.text)
      case None => Err(Invalid)
      case Some(v) => if v.Obj? then Ok(v) else Err(Invalid)
  }

  /** A response is taken exactly when it has at most 4 MiB and its text is that of an object. */
  lemma FetchIsExact(body: Body, v: Json)
    ensures Fetch(body) == Ok(v) <==> BodySize(body) <= 4_194_304 && Loads(body.text) == Some(v) && v.Obj?
    ensures Fetch(body).Err? ==> Fetch(body).error == Invalid
  {
  }

  /** An envelope in UTF-8 text of the cache file fits the limit of loading. */
  predicate FitsCache(envelope: Json) {
    TextSize(Utf8, Canonical(envelope)) <= MAX_BYTES
  }

  /** What was fetched in UTF-8 or UTF-32 fits the cache; in UTF-16 it does if it keeps to two thirds of the limit. */
  lemma FetchedFitsCache(body: Body)
    requires Fetch(body).Ok?
    requires body.encoding == Utf16 ==> 3 * BodySize(body) <= 2 * MAX_BYTES
    ensures FitsCache(Fetch(body).value)
  {
    RewritingNeverGrows(Utf8, body.text);
    Utf8Against(body.text);
  }

  // ---------- validation ----------

  predicate IsAscii(s: string) {
    forall i | 0 <= i < |s| :: s[i] as int < 0x80
  }

  /** The constant-time comparison refuses to compare text that is not ASCII, with an error nobody handles. */
  function VerifyPayload(payload: Json, signature: string, mac: string -> string): Result<bool> {
    var expected := mac(Canonical(payload));
    if IsAscii(expected) && IsAscii(signature) then Ok(expected == signature) else Err(Fault)
  }

  /** The members of an envelope; only the cache file can hold something that is not an object. */
  function EnvelopeFields(envelope: Json): Result<map<string, Json>> {
    match envelope
    case Obj(fields) => if fields.Keys == {"payload", "signature"} then Ok(fields) else Err(Invalid)
    case Str(_) => Err(Invalid)
    case Arr(items) =>
      if (forall i | 0 <= i < |items| :: Hashable(items[i])) &&
         (set v | v in items) != {Str("payload"), Str("signature")}
      then Err(Invalid) else Err(Fault)
    case _ => Err(Fault)
  }

  /** The payload of a genuine envelope. */
  function SignedPayload(cfg: Config, envelope: Json): Result<map<string, Json>> {
    var fields :- EnvelopeFields(envelope);
    var payload := fields["payload"];
    var signature := fields["signature"];
    if !payload.Obj? || !signature.Str? then Err(Invalid)
    else
      var genuine :- VerifyPayload(payload, signature.s, cfg.mac);
      if genuine then Ok(payload.fields) else Err(Invalid)
  }

  function CheckTimes(parsed: Result<DesiredState>, now: int, allowExpired: bool): Result<DesiredState> {
    var state :- parsed;
    if state.issuedAt > now + SKEW then Err(Invalid)
    else if !allowExpired && state.expiresAt <= now then Err(Invalid)
    else Ok(state)
  }

  function ValidateEnvelope(cfg: Config, envelope: Json, now: int, allowExpired: bool): Result<DesiredState> {
    match SignedPayload(cfg, envelope)
    case Err(e) => Err(e)
    case Ok(payload) => CheckTimes(cfg.parse(payload), now, allowExpired)
  }

  /** Once its signature and its content are accepted, an envelope stays acceptable as a cached one. */
  lemma ValidationKeepsWithTime(cfg: Config, envelope: Json, now: int, later: int, allowExpired: bool)
    requires now <= later
    requires ValidateEnvelope(cfg, envelope, now, allowExpired).Ok?
    ensures ValidateEnvelope(cfg, envelope, later, true) == ValidateEnvelope(cfg, envelope, now, allowExpired)
  {
  }

  /** The payload of an envelope that was validated. */
  function PayloadOf(envelope: Json): map<string, Json> {
    if envelope.Obj? && "payload" in envelope.fields && envelope.fields["payload"].Obj?
    then envelope.fields["payload"].fields else map[]
  }

  // ---------- memory ----------

  datatype Memory = Memory(
    state: Option<DesiredState>, envelope: Option<Json>, lastSuccess: Option<int>, lastError: Option<string>)

  const EMPTY := Memory(None, None, None, None)
  const STALE := "manager state is stale; using signed local cache"

  /** What reading the cache file at `now` gives. */
  function ReadCache(cfg: Config, file: Option<string>, now: int): Result<Option<(Json, DesiredState)>> {
    if file.None? then Ok(None)
    else if TextSize(Utf8, file.value) > MAX_BYTES then Err(Invalid)
    else
      match Loads(file.value)
      case None => Err(Invalid)
      case Some(envelope) =>
        var state :- ValidateEnvelope(cfg, envelope, now, true);
        Ok(Some((envelope, state)))
  }

  function AfterLoad(cfg: Config, file: Option<string>, mem: Memory, now: int): Memory {
    match ReadCache(cfg, file, now)
    case Ok(Some((envelope, state))) =>
      mem.(state := Some(state), envelope := Some(envelope),
           lastError := if state.expiresAt <= now then Some(STALE) else None)
    case _ => mem
  }

  /** The decision about an envelope from the manager: refuse it, take it as an exact replay, or replace the
      cached one by it. */
  datatype Verdict = Refuse(error: Error) | Replay(state: DesiredState) | Replace(state: DesiredState)

  function Decide(cfg: Config, mem: Memory, envelope: Json, now: int): Verdict {
    Judge(mem, envelope, ValidateEnvelope(cfg, envelope, now, false))
  }

  function Judge(mem: Memory, envelope: Json, validated: Result<DesiredState>): Verdict {
    match validated
    case Err(e) => Refuse(e)
    case Ok(state) =>
      if mem.state.None? || state.generation > mem.state.value.generation then Replace(state)
      else if state.generation < mem.state.value.generation then Refuse(Invalid)
      else if mem.envelope.None? then Refuse(Invalid)
      else if !SamePayloadText(mem.envelope.value, envelope) then Refuse(Invalid)
      else if state.issuedAt < mem.state.value.issuedAt || state.expiresAt < mem.state.value.expiresAt
      then Refuse(Invalid)
      else if Canonical(envelope) != Canonical(mem.envelope.value) then Replace(state)
      else Replay(state)
  }

  predicate SamePayloadText(a: Json, b: Json) {
    Canonical(Obj(WithoutTimestamps(PayloadOf(a)))) == Canonical(Obj(WithoutTimestamps(PayloadOf(b))))
  }

  /** Where the process dies during an atomic write: not at all, before the rename, or after it. */
  datatype Cut = Completes | BeforeRename | AfterRename

  datatype Outcome = Returned(state: DesiredState) | Raised(error: Error) | Died

  // ---------- the store ----------

  class StateStore {
    const cfg: Config
    var file: Option<string>
    var state: Option<DesiredState>
    var envelope: Option<Json>
    var lastManagerSuccess: Option<int>
    var lastError: Option<string>

    constructor (cfg: Config, file: Option<string>)
      ensures this.cfg == cfg && this.file == file && Mem() == EMPTY
    {
      this.cfg := cfg;
      this.file := file;
      state, envelope, lastManagerSuccess, lastError := None, None, None, None;
    }

    function Mem(): Memory
      reads this
    {
      Memory(state, envelope, lastManagerSuccess, lastError)
    }

    /** Writes a temporary file and renames it; the rename is atomic. */
    method AtomicSecretJson(value: Json, cut: Cut) returns (died: bool)
      modifies this`file
      ensures file == if cut == BeforeRename then old(file) else Some(Canonical(value))
      ensures died <==> cut != Completes
    {
      if cut == BeforeRename {
        return true;
      }
      file := Some(Canonical(value));
      died := cut == AfterRename;
    }

    method LoadCache(now: int) returns (r: Result<Option<DesiredState>>)
      modifies this
      ensures file == old(file)
      ensures Mem() == AfterLoad(cfg, old(file), old(Mem()), now)
      ensures old(Mem()) == EMPTY ==> Node(Some(Mem()), file) == Step(cfg, Node(None, old(file)), Boot(now))
      ensures match ReadCache(cfg, old(file), now)
              case Ok(Some((e, s))) =>
                && r == Ok(Some(s)) && state == Some(s) && envelope == Some(e)
                && lastManagerSuccess == old(lastManagerSuccess)
                && lastError ==
                   if s.expiresAt <= now then Some("manager state is stale; using signed local cache") else None
              case Ok(None) => r == Ok(None) && Mem() == old(Mem())
              case Err(e) => r == Err(e) && Mem() == old(Mem())
    {
      if file.None? {
        return Ok(None);
      }
      if TextSize(Utf8, file.value) > MAX_BYTES {
        return Err(Invalid);
      }
      var decoded := Loads(file.value);
      if decoded.None? {
        return Err(Invalid);
      }
      var loaded := ValidateEnvelope(cfg, decoded.value, now, true);
      if loaded.Err? {
        return Err(loaded.error);
      }
      state := Some(loaded.value);
      envelope := decoded;
      lastError := if loaded.value.expiresAt <= now then Some(STALE) else None;
      return Ok(state);
    }

    method AcceptRemote(remote: Json, now: int, cut: Cut) returns (r: Outcome)
      modifies this
      ensures Settled(r, Decide(cfg, old(Mem()), remote, now), old(Mem()), old(file), remote, now, cut)
      ensures var after := AfterAccept(cfg, Node(Some(old(Mem())), old(file)), remote, now, cut);
              file == after.file && if r.Died? then after.mem == None else after.mem == Some(Mem())
    {
      var validated := ValidateEnvelope(cfg, remote, now, false);
      r := AcceptValidated(remote, validated, now, cut);
    }

    /** What a call leaves behind, for each verdict. */
    predicate Settled(
        r: Outcome, verdict: Verdict, mem: Memory, before: Option<string>, remote: Json, now: int, cut: Cut)
      reads this
    {
      match verdict
      case Refuse(e) => r == Raised(e) && Mem() == mem && file == before
      case Replay(s) =>
        && r == Returned(s) && file == before
        && Mem() == mem.(lastSuccess := Some(now), lastError := None)
      case Replace(s) =>
        && file == (if cut == BeforeRename then before else Some(Canonical(remote)))
        && if cut == Completes
           then r == Returned(s) && Mem() == Memory(Some(s), Some(remote), Some(now), None)
           else r == Died
    }

    /** The part under the lock. */
    method AcceptValidated(remote: Json, validated: Result<DesiredState>, now: int, cut: Cut) returns (r: Outcome)
      modifies this
      ensures Settled(r, Judge(old(Mem()), remote, validated), old(Mem()), old(file), remote, now, cut)
    {
      if validated.Err? {
        return Raised(validated.error);
      }
      var next := validated.value;
      if state.Some? && next.generation < state.value.generation {
        return Raised(Invalid);
      }
      if state.Some? && next.generation == state.value.generation {
        if envelope.None? {
          return Raised(Invalid);
        }
        var oldImmutable := WithoutTimestamps(PayloadOf(envelope.value));
        var newImmutable := WithoutTimestamps(PayloadOf(remote));
        if Canonical(Obj(newImmutable)) != Canonical(Obj(oldImmutable)) {
          return Raised(Invalid);
        }
        if next.issuedAt < state.value.issuedAt || next.expiresAt < state.value.expiresAt {
          return Raised(Invalid);
        }
        if Canonical(remote) != Canonical(envelope.value) {
          var died := AtomicSecretJson(remote, cut);
          if died {
            return Died;
          }
          state := Some(next);
          envelope := Some(remote);
        }
        lastManagerSuccess := Some(now);
        lastError := None;
        return Returned(next);
      }
      var died := AtomicSecretJson(remote, cut);
      if died {
        return Died;
      }
      state := Some(next);
      envelope := Some(remote);
      lastManagerSuccess := Some(now);
      lastError := None;
      return Returned(next);
    }

    method MarkError(message: string)
      modifies this`lastError
      ensures lastError == Some(if |message| <= 256 then message else message[..256])
    {
      lastError := Some(if |message| <= 256 then message else message[..256]);
    }

    function Snapshot(): Option<DesiredState>
      reads this
    {
      state
    }
  }

  // ---------- histories ----------

  /** One machine: the memory of the agent process while it runs, and the cache file. */
  datatype Node = Node(mem: Option<Memory>, file: Option<string>)

  datatype Event =
    | Boot(now: int)
    | Poll(body: Body, now: int, cut: Cut)
    | Mark(message: string, now: int)
    | Kill(now: int)

  function Step(cfg: Config, n: Node, e: Event): Node {
    match e
    case Boot(now) => n.(mem := Some(AfterLoad(cfg, n.file, EMPTY, now)))
    case Kill(_) => n.(mem := None)
    case Mark(message, _) =>
      if n.mem.None? then n
      else n.(mem := Some(n.mem.value.(lastError := Some(if |message| <= 256 then message else message[..256]))))
    case Poll(body, now, cut) =>
      match Fetch(body)
      case Err(_) => n
      case Ok(envelope) => AfterAccept(cfg, n, envelope, now, cut)
  }

  function AfterAccept(cfg: Config, n: Node, envelope: Json, now: int, cut: Cut): Node {
    if n.mem.None? then n
    else AfterVerdict(n, envelope, Decide(cfg, n.mem.value, envelope, now), now, cut)
  }

  function AfterVerdict(n: Node, envelope: Json, verdict: Verdict, now: int, cut: Cut): Node
    requires n.mem.Some?
  {
    match verdict
    case Refuse(_) => n
    case Replay(_) => n.(mem := Some(n.mem.value.(lastSuccess := Some(now), lastError := None)))
    case Replace(s) => Replaced(n, envelope, s, now, cut)
  }

  /** The node after a replacement that is completed, or cut on either side of the rename. */
  function Replaced(n: Node, envelope: Json, s: DesiredState, now: int, cut: Cut): Node {
    Node(if cut == Completes then Some(Memory(Some(s), Some(envelope), Some(now), None)) else None,
         if cut == BeforeRename then n.file else Some(Canonical(envelope)))
  }

  function Run(cfg: Config, n: Node, events: seq<Event>): Node
    decreases |events|
  {
    if events == [] then n else Run(cfg, Step(cfg, n, events[0]), events[1..])
  }

  function Served(n: Node): Option<DesiredState> {
    if n.mem.Some? then n.mem.value.state else None
  }

  predicate Storable(e: Event) {
    e.Poll? && e.body.encoding == Utf16 && Fetch(e.body).Ok? ==> FitsCache(Fetch(e.body).value)
  }

  /** The clock never goes back, and what arrives in UTF-16 fits the cache; for other encodings that is a theorem. */
  predicate Admissible(events: seq<Event>, clock: int) {
    && (forall i | 0 <= i < |events| :: clock <= events[i].now)
    && (forall i, j | 0 <= i < j < |events| :: events[i].now <= events[j].now)
    && (forall i | 0 <= i < |events| :: Storable(events[i]))
  }

  /** The later state has a higher generation, or the same generation with the same content and timestamps
      that did not go back. */
  predicate Upward(a: DesiredState, b: DesiredState) {
    || a.generation < b.generation
    || (a.generation == b.generation && SameContent(a, b) && a.issuedAt <= b.issuedAt && a.expiresAt <= b.expiresAt)
  }

  /** The cache file, when there is one, is accepted from now on; memory holds exactly what the file holds. */
  predicate Consistent(cfg: Config, n: Node, clock: int) {
    var cached := ReadCache(cfg, n.file, clock);
    && cached.Ok?
    && (n.mem.Some? ==> Holds(n.mem.value, cached.value))
  }

  predicate Holds(mem: Memory, cached: Option<(Json, DesiredState)>) {
    match cached
    case None => mem.state.None? && mem.envelope.None?
    case Some((envelope, state)) => mem.state == Some(state) && mem.envelope == Some(envelope)
  }

  function Cached(cfg: Config, n: Node, clock: int): Option<(Json, DesiredState)>
    requires Consistent(cfg, n, clock)
  {
    ReadCache(cfg, n.file, clock).value
  }

  /** Higher generation, or same generation and same payload but for timestamps that do not go back. */
  predicate MayFollow(cached: (Json, DesiredState), envelope: Json, state: DesiredState) {
    || cached.1.generation < state.generation
    || (&& cached.1.generation == state.generation
        && WithoutTimestamps(PayloadOf(cached.0)) == WithoutTimestamps(PayloadOf(envelope))
        && cached.1.issuedAt <= state.issuedAt && cached.1.expiresAt <= state.expiresAt)
  }

  predicate CacheUpward(a: Option<(Json, DesiredState)>, b: Option<(Json, DesiredState)>) {
    a.Some? ==> b.Some? && MayFollow(a.value, b.value.0, b.value.1)
  }

  // ---------- the cache file is never refused ----------

  /** Whatever is accepted and written can be loaded at any later time, exactly when it fits the size limit
      that only loading has. */
  lemma WrittenCacheIsReadable(cfg: Config, envelope: Json, now: int, later: int)
    requires now <= later
    requires ValidateEnvelope(cfg, envelope, now, false).Ok?
    ensures var read := ReadCache(cfg, Some(Canonical(envelope)), later);
            && (read.Ok? <==> FitsCache(envelope))
            && (read.Ok? ==> read.value == Some((envelope, ValidateEnvelope(cfg, envelope, now, false).value)))
  {
    hide ValidateEnvelope, Canonical, Loads, TextSize;
    RoundTrip(envelope);
    ValidationKeepsWithTime(cfg, envelope, now, later, false);
  }

  lemma CacheStaysReadable(cfg: Config, file: Option<string>, clock: int, later: int)
    requires clock <= later
    requires ReadCache(cfg, file, clock).Ok?
    ensures ReadCache(cfg, file, later) == ReadCache(cfg, file, clock)
  {
    if file.Some? {
      ValidationKeepsWithTime(cfg, Loads(file.value).value, clock, later, true);
    }
  }

  // ---------- exactly what is accepted ----------

  lemma SameTextSamePayload(a: Json, b: Json)
    ensures SamePayloadText(a, b) <==> WithoutTimestamps(PayloadOf(a)) == WithoutTimestamps(PayloadOf(b))
  {
    if SamePayloadText(a, b) {
      CanonicalIsInjective(Obj(WithoutTimestamps(PayloadOf(a))), Obj(WithoutTimestamps(PayloadOf(b))));
    }
  }

  lemma JudgementIsExact(mem: Memory, envelope: Json, state: DesiredState, cached: (Json, DesiredState))
    requires Holds(mem, Some(cached))
    requires envelope == cached.0 ==> state == cached.1
    ensures var verdict := Judge(mem, envelope, Ok(state));
            && (!verdict.Refuse? <==> MayFollow(cached, envelope, state))
            && (verdict.Replay? <==> envelope == cached.0)
            && (verdict.Replay? ==> verdict.state == cached.1)
            && (verdict.Replace? ==> verdict.state == state)
  {
    SameTextSamePayload(cached.0, envelope);
    if Canonical(envelope) == Canonical(cached.0) {
      CanonicalIsInjective(envelope, cached.0);
    }
  }

  lemma SignedPayloadOf(cfg: Config, envelope: Json)
    requires SignedPayload(cfg, envelope).Ok?
    ensures SignedPayload(cfg, envelope) == Ok(PayloadOf(envelope))
  {
  }

  lemma ValidatedPayload(cfg: Config, envelope: Json, now: int, allowExpired: bool)
    requires ValidateEnvelope(cfg, envelope, now, allowExpired).Ok?
    ensures cfg.parse(PayloadOf(envelope)) == ValidateEnvelope(cfg, envelope, now, allowExpired)
  {
    SignedPayloadOf(cfg, envelope);
  }

  /** With a state in memory, a valid envelope is let through exactly when it may follow the cached one. It is
      taken as a replay exactly when it is the cached envelope, and then the state that is returned is the one
      in memory. */
  lemma DecisionIsExact(cfg: Config, mem: Memory, envelope: Json, now: int, clock: int, cached: (Json, DesiredState))
    requires ValidateEnvelope(cfg, cached.0, clock, true) == Ok(cached.1) && Holds(mem, Some(cached))
    ensures var decision := Decide(cfg, mem, envelope, now);
            var validated := ValidateEnvelope(cfg, envelope, now, false);
            && (!decision.Refuse? <==> validated.Ok? && MayFollow(cached, envelope, validated.value))
            && (decision.Replay? <==> validated.Ok? && envelope == cached.0)
            && (decision.Replay? ==> decision.state == cached.1)
            && (decision.Replace? ==> decision.state == validated.value)
  {
    var validated := ValidateEnvelope(cfg, envelope, now, false);
    if validated.Ok? {
      ValidatedPayload(cfg, envelope, now, false);
      ValidatedPayload(cfg, cached.0, clock, true);
      JudgementIsExact(mem, envelope, validated.value, cached);
    }
  }

  /** An envelope passes validation exactly when it has the two members and no other, carries the signature of its
      canonical payload, parses strictly, and is neither from the future nor, unless that is allowed, expired. */
  lemma ValidationIsExact(cfg: Config, envelope: Json, now: int, allowExpired: bool, s: DesiredState)
    ensures ValidateEnvelope(cfg, envelope, now, allowExpired) == Ok(s) <==>
            var payload := Obj(PayloadOf(envelope));
            var signature := cfg.mac(Canonical(payload));
            && envelope == Obj(map["payload" := payload, "signature" := Str(signature)]) && IsAscii(signature)
            && cfg.parse(PayloadOf(envelope)) == Ok(s)
            && s.issuedAt <= now + SKEW && (allowExpired || now < s.expiresAt)
  {
    if SignedPayload(cfg, envelope).Ok? {
      SignedPayloadOf(cfg, envelope);
      var f := envelope.fields;
      assert f == map["payload" := f["payload"], "signature" := f["signature"]];
    }
    var payload := Obj(PayloadOf(envelope));
    var signature := cfg.mac(Canonical(payload));
    if envelope == Obj(map["payload" := payload, "signature" := Str(signature)]) && IsAscii(signature) {
      assert envelope.fields.Keys == {"payload", "signature"};
    }
  }

  // ---------- which error a refusal is ----------

  /** Something whose members cannot be listed or looked up; only a cache file can hold it. */
  predicate IsUnreadable(envelope: Json) {
    || envelope.Null? || envelope.Bool? || envelope.Num?
    || (envelope.Arr? && exists v | v in envelope.items :: v.Arr? || v.Obj?)
    || (envelope.Arr? && (set v | v in envelope.items) == {Str("payload"), Str("signature")})
  }

  /** A well-formed envelope in which the signature, or the one that it should have, is not ASCII. */
  predicate IsIncomparable(cfg: Config, envelope: Json) {
    && envelope.Obj? && envelope.fields.Keys == {"payload", "signature"}
    && envelope.fields["payload"].Obj? && envelope.fields["signature"].Str?
    && !(IsAscii(cfg.mac(Canonical(envelope.fields["payload"]))) && IsAscii(envelope.fields["signature"].s))
  }

  /** Validation ends with an error that nobody handles exactly for these, and for genuine envelopes on whose payload
      the parser does. Everything else that is refused is refused with the error that callers handle. */
  lemma FaultsExactly(cfg: Config, envelope: Json, now: int, allowExpired: bool)
    ensures ValidateEnvelope(cfg, envelope, now, allowExpired) == Err(Fault) <==>
            || IsUnreadable(envelope) || IsIncomparable(cfg, envelope)
            || (SignedPayload(cfg, envelope).Ok? && cfg.parse(PayloadOf(envelope)) == Err(Fault))
  {
    hide Canonical, IsAscii;
    if SignedPayload(cfg, envelope).Ok? {
      SignedPayloadOf(cfg, envelope);
    } else {
      SignatureFaultsExactly(cfg, envelope);
    }
  }

  lemma SignatureFaultsExactly(cfg: Config, envelope: Json)
    ensures SignedPayload(cfg, envelope) == Err(Fault) <==> IsUnreadable(envelope) || IsIncomparable(cfg, envelope)
  {
    hide Canonical, IsAscii;
    if envelope.Arr? {
      assert (forall i | 0 <= i < |envelope.items| :: Hashable(envelope.items[i])) <==>
             !(exists v | v in envelope.items :: v.Arr? || v.Obj?);
    }
  }

  /** A genuine state from more than two minutes ahead, or one that is expired where that matters, is refused with the
      error that callers handle. */
  lemma WrongTimesAreInvalid(cfg: Config, envelope: Json, now: int, allowExpired: bool, s: DesiredState)
    requires SignedPayload(cfg, envelope).Ok? && cfg.parse(PayloadOf(envelope)) == Ok(s)
    ensures ValidateEnvelope(cfg, envelope, now, allowExpired) ==
            if s.issuedAt > now + 120_000_000 || (!allowExpired && s.expiresAt <= now) then Err(Invalid) else Ok(s)
  {
    SignedPayloadOf(cfg, envelope);
  }

  /** Of a state that was validated, the comparison with the cached one never makes such an error. So a poll ends in one
      exactly when validation does. */
  lemma RefusalsAreExact(cfg: Config, mem: Memory, envelope: Json, now: int)
    ensures Decide(cfg, mem, envelope, now) == Refuse(Fault) <==>
            ValidateEnvelope(cfg, envelope, now, false) == Err(Fault)
    ensures ValidateEnvelope(cfg, envelope, now, false).Ok? && Decide(cfg, mem, envelope, now).Refuse? ==>
              Decide(cfg, mem, envelope, now) == Refuse(Invalid)
  {
  }

  /** With nothing in memory an envelope is taken exactly when it is valid. */
  lemma FirstDecisionIsExact(cfg: Config, mem: Memory, envelope: Json, now: int)
    requires mem.state.None?
    ensures Decide(cfg, mem, envelope, now) ==
            match ValidateEnvelope(cfg, envelope, now, false)
            case Ok(s) => Replace(s)
            case Err(e) => Refuse(e)
  {
  }

  /** With a signature function that has no collisions, one signature is valid for one payload only. */
  lemma SignatureBindsThePayload(cfg: Config, a: Json, b: Json, now: int, later: int)
    requires forall x, y :: cfg.mac(x) == cfg.mac(y) ==> x == y
    requires ValidateEnvelope(cfg, a, now, true).Ok? && ValidateEnvelope(cfg, b, later, true).Ok?
    requires a.fields["signature"] == b.fields["signature"]
    ensures a == b
  {
    ValidationIsExact(cfg, a, now, true, ValidateEnvelope(cfg, a, now, true).value);
    ValidationIsExact(cfg, b, later, true, ValidateEnvelope(cfg, b, later, true).value);
    var p, q := Obj(PayloadOf(a)), Obj(PayloadOf(b));
    assert cfg.mac(Canonical(p)) == cfg.mac(Canonical(q));
    CanonicalIsInjective(p, q);
  }

  // ---------- every step moves up ----------

  lemma CacheUpwardIsTransitive(
      a: Option<(Json, DesiredState)>, b: Option<(Json, DesiredState)>, c: Option<(Json, DesiredState)>)
    requires CacheUpward(a, b) && CacheUpward(b, c)
    ensures CacheUpward(a, c)
  {
  }

  lemma DecisionIsUpward(cfg: Config, n: Node, envelope: Json, now: int)
    requires Consistent(cfg, n, now) && n.mem.Some?
    requires Decide(cfg, n.mem.value, envelope, now).Replace?
    ensures var s := Decide(cfg, n.mem.value, envelope, now).state;
            && ValidateEnvelope(cfg, envelope, now, false) == Ok(s)
            && CacheUpward(Cached(cfg, n, now), Some((envelope, s)))
  {
    var cached := Cached(cfg, n, now);
    if cached.Some? {
      DecisionIsExact(cfg, n.mem.value, envelope, now, now, cached.value);
    }
  }

  lemma ReplacementKeeps(cfg: Config, n: Node, envelope: Json, s: DesiredState, now: int, cut: Cut)
    requires Consistent(cfg, n, now) && CacheUpward(Cached(cfg, n, now), Some((envelope, s)))
    requires ReadCache(cfg, Some(Canonical(envelope)), now) == Ok(Some((envelope, s)))
    ensures var after := Replaced(n, envelope, s, now, cut);
            Consistent(cfg, after, now) && CacheUpward(Cached(cfg, n, now), Cached(cfg, after, now))
  {
    CacheUpwardIsReflexive(Cached(cfg, n, now));
  }

  lemma CacheUpwardIsReflexive(a: Option<(Json, DesiredState)>)
    ensures CacheUpward(a, a)
  {
  }

  lemma AcceptKeeps(cfg: Config, n: Node, envelope: Json, now: int, cut: Cut)
    requires Consistent(cfg, n, now) && FitsCache(envelope)
    ensures var after := AfterAccept(cfg, n, envelope, now, cut);
            Consistent(cfg, after, now) && CacheUpward(Cached(cfg, n, now), Cached(cfg, after, now))
  {
    hide ValidateEnvelope, Judge, Loads, Canonical, FitsCache;
    CacheUpwardIsReflexive(Cached(cfg, n, now));
    if n.mem.Some? {
      var decision := Decide(cfg, n.mem.value, envelope, now);
      if decision.Replace? {
        DecisionIsUpward(cfg, n, envelope, now);
        WrittenCacheIsReadable(cfg, envelope, now, now);
        ReplacementKeeps(cfg, n, envelope, decision.state, now, cut);
      }
    }
  }

  lemma StepKeeps(cfg: Config, n: Node, e: Event, clock: int)
    requires Consistent(cfg, n, clock) && clock <= e.now && Storable(e)
    ensures var after := Step(cfg, n, e);
            Consistent(cfg, after, e.now) && CacheUpward(Cached(cfg, n, clock), Cached(cfg, after, e.now))
  {
    hide ReadCache, AfterAccept, Fetch, FitsCache;
    CacheStaysReadable(cfg, n.file, clock, e.now);
    CacheUpwardIsReflexive(Cached(cfg, n, clock));
    match e
    case Poll(body, now, cut) =>
      if Fetch(body).Ok? {
        if body.encoding != Utf16 {
          FetchedFitsCache(body);
        }
        AcceptKeeps(cfg, n, Fetch(body).value, now, cut);
      }
    case _ =>
  }

  function LastClock(events: seq<Event>, clock: int): int {
    if events == [] then clock else events[|events| - 1].now
  }

  lemma AdmissibleTail(events: seq<Event>, clock: int)
    requires events != [] && Admissible(events, clock)
    ensures clock <= events[0].now && Admissible(events[1..], events[0].now)
    ensures LastClock(events[1..], events[0].now) == LastClock(events, clock)
    ensures Storable(events[0])
  {
  }

  /** Over any history, whatever is cut and restarted where: the cache file stays acceptable, memory agrees with
      it, and what is cached only moves up. */
  lemma {:induction false} RunKeeps(cfg: Config, n: Node, events: seq<Event>, clock: int)
    requires Consistent(cfg, n, clock) && Admissible(events, clock)
    ensures var last := LastClock(events, clock);
            var after := Run(cfg, n, events);
            Consistent(cfg, after, last) && CacheUpward(Cached(cfg, n, clock), Cached(cfg, after, last))
    decreases |events|
  {
    if events != [] {
      var next := Step(cfg, n, events[0]);
      StepKeeps(cfg, n, events[0], clock);
      AdmissibleTail(events, clock);
      RunKeeps(cfg, next, events[1..], events[0].now);
      CacheUpwardIsTransitive(Cached(cfg, n, clock), Cached(cfg, next, events[0].now),
                              Cached(cfg, Run(cfg, n, events), LastClock(events, clock)));
    }
  }

  lemma {:induction false} RunSplits(cfg: Config, n: Node, a: seq<Event>, b: seq<Event>)
    ensures Run(cfg, n, a + b) == Run(cfg, Run(cfg, n, a), b)
    decreases |a|
  {
    if a == [] {
      assert a + b == b;
    } else {
      assert (a + b)[1..] == a[1..] + b;
      RunSplits(cfg, Step(cfg, n, a[0]), a[1..], b);
    }
  }

  lemma AdmissibleSplits(a: seq<Event>, b: seq<Event>, clock: int)
    requires Admissible(a + b, clock)
    ensures Admissible(a, clock) && Admissible(b, LastClock(a, clock))
  {
    var all := a + b;
    assert forall i | 0 <= i < |a| :: a[i] == all[i];
    assert forall i | 0 <= i < |b| :: b[i] == all[|a| + i];
  }

  lemma FollowersAreUpward(cfg: Config, cached: (Json, DesiredState), envelope: Json, state: DesiredState)
    requires ParsesContent(cfg) && MayFollow(cached, envelope, state)
    requires cfg.parse(PayloadOf(cached.0)) == Ok(cached.1) && cfg.parse(PayloadOf(envelope)) == Ok(state)
    ensures Upward(cached.1, state)
  {
  }

  lemma CachedIsParsed(cfg: Config, n: Node, clock: int)
    requires Consistent(cfg, n, clock) && Cached(cfg, n, clock).Some?
    ensures var cached := Cached(cfg, n, clock).value; cfg.parse(PayloadOf(cached.0)) == Ok(cached.1)
  {
    ValidatedPayload(cfg, Loads(n.file.value).value, clock, true);
  }

  /** Of any two states served during one history, the later one is upward of the earlier one: no rollback, and
      under one generation nothing but timestamps ever changes. */
  lemma ServedStatesMoveUp(cfg: Config, n: Node, a: seq<Event>, b: seq<Event>, clock: int)
    requires ParsesContent(cfg) && Consistent(cfg, n, clock) && Admissible(a + b, clock)
    requires Served(Run(cfg, n, a)).Some? && Served(Run(cfg, n, a + b)).Some?
    ensures Upward(Served(Run(cfg, n, a)).value, Served(Run(cfg, n, a + b)).value)
  {
    AdmissibleSplits(a, b, clock);
    RunKeeps(cfg, n, a, clock);
    RunSplits(cfg, n, a, b);
    var middle, turn := Run(cfg, n, a), LastClock(a, clock);
    RunKeeps(cfg, middle, b, turn);
    var end, last := Run(cfg, middle, b), LastClock(b, turn);
    CachedIsParsed(cfg, middle, turn);
    CachedIsParsed(cfg, end, last);
    var later := Cached(cfg, end, last).value;
    FollowersAreUpward(cfg, Cached(cfg, middle, turn).value, later.0, later.1);
  }

  /** The same for one accept: what is served afterwards is upward of what was served before. */
  lemma AcceptServesUpward(cfg: Config, n: Node, envelope: Json, now: int, cut: Cut)
    requires ParsesContent(cfg) && Consistent(cfg, n, now) && FitsCache(envelope)
    ensures var after := AfterAccept(cfg, n, envelope, now, cut);
            && Consistent(cfg, after, now)
            && (Served(n).Some? && after.mem.Some? ==>
                  Served(after).Some? && Upward(Served(n).value, Served(after).value))
  {
    hide ReadCache, AfterAccept, FitsCache;
    AcceptKeeps(cfg, n, envelope, now, cut);
    var after := AfterAccept(cfg, n, envelope, now, cut);
    var was, later := Cached(cfg, n, now), Cached(cfg, after, now);
    if Served(n).Some? && after.mem.Some? {
      CachedIsParsed(cfg, n, now);
      CachedIsParsed(cfg, after, now);
      FollowersAreUpward(cfg, was.value, later.value.0, later.value.1);
    }
  }

  lemma ConsistentStaysConsistent(cfg: Config, n: Node, clock: int, now: int)
    requires Consistent(cfg, n, clock) && clock <= now
    ensures Consistent(cfg, n, now)
  {
    CacheStaysReadable(cfg, n.file, clock, now);
  }

  /** Notices and times in memory do not matter to it. */
  lemma ConsistentIgnoresNotices(cfg: Config, mem: Memory, other: Memory, file: Option<string>, clock: int)
    requires mem.state == other.state && mem.envelope == other.envelope
    ensures Consistent(cfg, Node(Some(mem), file), clock) <==> Consistent(cfg, Node(Some(other), file), clock)
  {
  }

  /** A restart at any point serves what was cached, and that is never below what was served before. */
  lemma RestartServesTheCache(cfg: Config, n: Node, events: seq<Event>, clock: int, now: int)
    requires Consistent(cfg, n, clock) && Admissible(events, clock) && LastClock(events, clock) <= now
    ensures var before := Run(cfg, n, events);
            && ReadCache(cfg, before.file, now).Ok?
            && (before.file.Some? ==> Served(Step(cfg, before, Boot(now))).Some?)
            && (Served(before).Some? ==> Served(Step(cfg, before, Boot(now))) == Served(before))
  {
    RunKeeps(cfg, n, events, clock);
    CacheStaysReadable(cfg, Run(cfg, n, events).file, LastClock(events, clock), now);
  }

  /** A machine that has never stored anything is where every history starts. */
  lemma EmptyMachineIsConsistent(cfg: Config, clock: int)
    ensures Consistent(cfg, Node(None, None), clock)
  {
  }

  /** The same for one relay, from the first start on. */
  lemma RelayStatesMoveUp(
      relayId: string, mac: string -> string, lib: Library, a: seq<Event>, b: seq<Event>, clock: int)
    requires Admissible(a + b, clock)
    requires Served(Run(RelayConfig(relayId, mac, lib), Node(None, None), a)).Some?
    requires Served(Run(RelayConfig(relayId, mac, lib), Node(None, None), a + b)).Some?
    ensures Upward(Served(Run(RelayConfig(relayId, mac, lib), Node(None, None), a)).value,
                   Served(Run(RelayConfig(relayId, mac, lib), Node(None, None), a + b)).value)
  {
    var cfg := RelayConfig(relayId, mac, lib);
    RelayParsesContent(relayId, mac, lib);
    EmptyMachineIsConsistent(cfg, clock);
    ServedStatesMoveUp(cfg, Node(None, None), a, b, clock);
  }

  // ---------- what happens above the limit ----------

  /** A poll whose envelope is let through and replaces the cached one can be followed by a restart exactly when the
      envelope fits the cache. */
  lemma RestartAfterPollExactly(cfg: Config, n: Node, body: Body, now: int, later: int)
    requires n.mem.Some? && now <= later && Fetch(body).Ok? && Decide(cfg, n.mem.value, Fetch(body).value, now).Replace?
    ensures var after := Step(cfg, n, Poll(body, now, Completes));
            && (ReadCache(cfg, after.file, later).Ok? <==> FitsCache(Fetch(body).value))
            && (FitsCache(Fetch(body).value) ==> Served(Step(cfg, after, Boot(later))) == Served(after))
            && (!FitsCache(Fetch(body).value) ==> Served(Step(cfg, after, Boot(later))) == None)
  {
    hide ValidateEnvelope, Loads, Canonical, FitsCache, Fetch;
    WrittenCacheIsReadable(cfg, Fetch(body).value, now, later);
  }

  /** Above it the generation is forgotten: after a restart any valid envelope is let through, an older one too. */
  lemma OversizedCacheForgets(cfg: Config, big: Body, small: Body, now: int)
    requires Fetch(big).Ok? && ValidateEnvelope(cfg, Fetch(big).value, now, false).Ok?
    requires Fetch(small).Ok? && ValidateEnvelope(cfg, Fetch(small).value, now, false).Ok?
    requires !FitsCache(Fetch(big).value)
    ensures var first := [Boot(now), Poll(big, now, Completes)];
            var second := [Kill(now), Boot(now), Poll(small, now, Completes)];
            && Served(Run(cfg, Node(None, None), first)) ==
               Some(ValidateEnvelope(cfg, Fetch(big).value, now, false).value)
            && Served(Run(cfg, Run(cfg, Node(None, None), first), second)) ==
               Some(ValidateEnvelope(cfg, Fetch(small).value, now, false).value)
  {
    hide ValidateEnvelope, Loads, Canonical, FitsCache, Fetch, Judge;
    RunTwo(cfg, Node(None, None), Boot(now), Poll(big, now, Completes));
    FirstAccept(cfg, None, Fetch(big).value, now);
    WrittenCacheIsReadable(cfg, Fetch(big).value, now, now);
    ForgottenAfterRestart(cfg, Run(cfg, Node(None, None), [Boot(now), Poll(big, now, Completes)]), small, now);
  }

  lemma ForgottenAfterRestart(cfg: Config, n: Node, small: Body, now: int)
    requires Fetch(small).Ok? && ValidateEnvelope(cfg, Fetch(small).value, now, false).Ok?
    requires ReadCache(cfg, n.file, now).Err?
    ensures Served(Run(cfg, n, [Kill(now), Boot(now), Poll(small, now, Completes)])) ==
            Some(ValidateEnvelope(cfg, Fetch(small).value, now, false).value)
  {
    hide ValidateEnvelope, Loads, Canonical, Fetch, Judge;
    var down := Step(cfg, n, Kill(now));
    RefusedCache(cfg, down, now);
    FirstAccept(cfg, down.file, Fetch(small).value, now);
    RunThree(cfg, n, Kill(now), Boot(now), Poll(small, now, Completes));
  }

  lemma FirstAccept(cfg: Config, file: Option<string>, envelope: Json, now: int)
    requires ValidateEnvelope(cfg, envelope, now, false).Ok?
    ensures var after := AfterAccept(cfg, Node(Some(EMPTY), file), envelope, now, Completes);
            && Served(after) == Some(ValidateEnvelope(cfg, envelope, now, false).value)
            && after.file == Some(Canonical(envelope))
  {
    FirstVerdict(file, envelope, ValidateEnvelope(cfg, envelope, now, false).value, now);
  }

  lemma FirstVerdict(file: Option<string>, envelope: Json, s: DesiredState, now: int)
    ensures var after := AfterVerdict(Node(Some(EMPTY), file), envelope, Judge(EMPTY, envelope, Ok(s)), now, Completes);
            Served(after) == Some(s) && after.file == Some(Canonical(envelope))
  {
  }

  lemma RefusedCache(cfg: Config, n: Node, now: int)
    requires ReadCache(cfg, n.file, now).Err?
    ensures Step(cfg, n, Boot(now)) == Node(Some(EMPTY), n.file)
  {
  }

  lemma RunTwo(cfg: Config, n: Node, a: Event, b: Event)
    ensures Run(cfg, n, [a, b]) == Step(cfg, Step(cfg, n, a), b)
  {
    assert [a, b][1..] == [b];
    assert Run(cfg, Step(cfg, n, a), [b]) == Run(cfg, Step(cfg, Step(cfg, n, a), b), [b][1..]);
  }

  lemma RunThree(cfg: Config, n: Node, a: Event, b: Event, c: Event)
    ensures Run(cfg, n, [a, b, c]) == Step(cfg, Step(cfg, Step(cfg, n, a), b), c)
  {
    assert [a, b, c][1..] == [b, c];
    RunTwo(cfg, Step(cfg, n, a), b, c);
  }
}
