/** How the limits of the current state reach the components that enforce them. */
module AgentRuntime {
  import opened Wrappers
  import opened Json
  import opened Models
  import opened StateStores
  import Admission
  import PathReconcilers
  import Sizes
  import Supervisors
  import Traffic

  /** The environment defaults, which configuration checks to be positive. */
  datatype Defaults = Defaults(maxActiveModels: int, trafficQuotaBytes: int)

  /** What is in force under a state: its own limits, or the defaults without them. */
  datatype InForce = InForce(maxConnections: int, quotaBytes: int, revision: Option<int>)

  function LimitsFor(state: Option<DesiredState>, defaults: Defaults): InForce {
    if state.Some? && state.value.limits.Some? then
      var l := state.value.limits.value;
      InForce(l.maxServerConnections, l.monthlyTrafficQuotaBytes, Some(l.revision))
    else InForce(defaults.maxActiveModels, defaults.trafficQuotaBytes, None)
  }

  /** Under schema version 2 the limits in force are those of the state, under its generation; else the defaults. */
  lemma LimitsFollowTheSchema(state: DesiredState, defaults: Defaults)
    requires GoodLimits(state)
    ensures var f := LimitsFor(Some(state), defaults);
            && (state.schemaVersion == 2 <==> f.revision.Some?)
            && (f.revision.Some? ==> f.revision == Some(state.generation))
            && (state.limits.Some? ==>
                  && f.maxConnections == state.limits.value.maxServerConnections
                  && f.quotaBytes == state.limits.value.monthlyTrafficQuotaBytes)
            && (state.limits.None? ==>
                  f.maxConnections == defaults.maxActiveModels && f.quotaBytes == defaults.trafficQuotaBytes)
            && (defaults.maxActiveModels >= 1 && defaults.trafficQuotaBytes >= 1 ==>
                  f.maxConnections >= 1 && f.quotaBytes >= 1)
  {
  }

  // ---------- memory of the store ----------

  /** The state in memory is the parsed payload of the envelope in memory. */
  predicate MemoryIsParsed(cfg: Config, mem: Memory) {
    && (mem.state.Some? <==> mem.envelope.Some?)
    && (mem.state.Some? ==>
          && cfg.parse(PayloadOf(mem.envelope.value)) == Ok(mem.state.value))
  }

  /** A parser that lets only positive limits under the right revision through. */
  ghost predicate ParsesLimits(cfg: Config) {
    forall p :: cfg.parse(p).Ok? ==> GoodLimits(cfg.parse(p).value)
  }

  lemma RelayParsesLimits(relayId: string, mac: string -> string, lib: Library)
    ensures ParsesLimits(RelayConfig(relayId, mac, lib))
  {
    var cfg := RelayConfig(relayId, mac, lib);
    forall p | cfg.parse(p).Ok? ensures GoodLimits(cfg.parse(p).value) {
      ParsedStateIsGood(p, relayId, lib);
    }
  }

  lemma ParsedLimits(cfg: Config, mem: Memory)
    requires ParsesLimits(cfg) && MemoryIsParsed(cfg, mem) && mem.state.Some?
    ensures GoodLimits(mem.state.value)
  {
  }

  lemma ReplayServesTheSameState(mem: Memory, envelope: Json, state: DesiredState)
    requires mem.state.Some? && mem.envelope.Some?
    requires envelope == mem.envelope.value ==> state == mem.state.value
    requires Judge(mem, envelope, Ok(state)).Replay?
    ensures mem.state == Some(state)
  {
    CanonicalIsInjective(envelope, mem.envelope.value);
  }

  /** Whatever an accepted envelope returns is what the store serves afterwards, on an exact replay too. */
  lemma AcceptedIsServed(cfg: Config, mem: Memory, envelope: Json, now: int)
    requires MemoryIsParsed(cfg, mem)
    ensures var decision := Decide(cfg, mem, envelope, now);
            && (decision.Replay? ==> mem.state == Some(decision.state))
            && (decision.Replace? ==>
                  MemoryIsParsed(cfg, Memory(Some(decision.state), Some(envelope), Some(now), None)))
  {
    var validated := ValidateEnvelope(cfg, envelope, now, false);
    if validated.Ok? {
      ValidatedPayload(cfg, envelope, now, false);
      if Decide(cfg, mem, envelope, now).Replay? {
        ReplayServesTheSameState(mem, envelope, validated.value);
      }
    }
  }

  // ---------- the runtime ----------

  /** One turn of the state loop: the body that the manager answered (None when the request fails or its bytes do not
      decode), the clock, and where the process dies during the write of the cache. */
  datatype Turn = Turn(answer: Option<Body>, now: int, cut: Cut)

  /** What the store decides in a turn; nothing when nothing can be fetched. */
  function VerdictIn(cfg: Config, mem: Memory, turn: Turn): Option<Verdict> {
    if turn.answer.None? || Fetch(turn.answer.value).Err? then None
    else Some(Decide(cfg, mem, Fetch(turn.answer.value).value, turn.now))
  }

  /** The state that a turn accepts, if it accepts one. */
  function AcceptedIn(verdict: Option<Verdict>): Option<DesiredState> {
    match verdict
    case None => None
    case Some(Refuse(_)) => None
    case Some(Replay(s)) => Some(s)
    case Some(Replace(s)) => Some(s)
  }

  /** The thread ends with an error that nobody handles, or the process dies while it writes the cache. */
  predicate EndsIn(verdict: Option<Verdict>, cut: Cut) {
    verdict == Some(Refuse(Fault)) || (verdict.Some? && verdict.value.Replace? && cut != Completes)
  }

  /** What the turn brings in UTF-16 fits the cache; for other encodings that is a theorem. */
  predicate StorableTurn(turn: Turn) {
    turn.answer.Some? ==> Storable(Poll(turn.answer.value, turn.now, turn.cut))
  }

  lemma StorableFits(turn: Turn)
    requires StorableTurn(turn) && turn.answer.Some? && Fetch(turn.answer.value).Ok?
    ensures FitsCache(Fetch(turn.answer.value).value)
  {
    if turn.answer.value.encoding != Sizes.Utf16 {
      FetchedFitsCache(turn.answer.value);
    }
  }

  /** From a state that was served, if any, nothing but an upward one is reached. */
  predicate MovesUp(was: Option<DesiredState>, now: Option<DesiredState>) {
    was.Some? ==> now.Some? && Upward(was.value, now.value)
  }

  /** What ends the loop in a turn: the process dies while it writes, or validation meets an error that nobody handles.
      A response that cannot be fetched, a state of a lower generation, an expired one or a wrong signature never
      does. */
  predicate CanEnd(cfg: Config, turn: Turn) {
    && turn.answer.Some? && Fetch(turn.answer.value).Ok?
    && (turn.cut != Completes ||
        ValidateEnvelope(cfg, Fetch(turn.answer.value).value, turn.now, false) == Err(Fault))
  }

  lemma EndsMeansCanEnd(cfg: Config, mem: Memory, turn: Turn)
    ensures EndsIn(VerdictIn(cfg, mem, turn), turn.cut) ==> CanEnd(cfg, turn)
  {
    hide ValidateEnvelope, Decide;
    if turn.answer.Some? && Fetch(turn.answer.value).Ok? {
      RefusalsAreExact(cfg, mem, Fetch(turn.answer.value).value, turn.now);
    }
  }

  /** For a response, which is an object, that error needs text that is not ASCII where signatures are compared, or a
      genuine payload on which the parser makes it. */
  lemma EndingIsExact(cfg: Config, turn: Turn)
    ensures CanEnd(cfg, turn) && turn.cut == Completes <==>
            && turn.cut == Completes && turn.answer.Some? && Fetch(turn.answer.value).Ok?
            && var envelope := Fetch(turn.answer.value).value;
               || IsIncomparable(cfg, envelope)
               || (SignedPayload(cfg, envelope).Ok? && cfg.parse(PayloadOf(envelope)) == Err(Fault))
  {
    hide ValidateEnvelope, IsIncomparable, SignedPayload, Loads;
    if turn.answer.Some? && Fetch(turn.answer.value).Ok? {
      var envelope := Fetch(turn.answer.value).value;
      FetchIsExact(turn.answer.value, envelope);
      FaultsExactly(cfg, envelope, turn.now, false);
    }
  }

  class Runtime {
    const defaults: Defaults
    const store: StateStore
    const admission: Admission.AdmissionController
    const supervisor: Supervisors.WorkerSupervisor
    const traffic: Traffic.TrafficAccountant
    const client: PathReconcilers.MediaMTXClient
    const reconciler: PathReconcilers.PathReconciler
    var appliedLimitRevision: Option<int>

    constructor (
        defaults: Defaults, relayId: string, mac: string -> string, lib: Library, cacheFile: Option<string>,
        trafficFile: Option<string>, readTime: string -> Option<int>, registry: Option<string>,
        client: PathReconcilers.MediaMTXClient, inputBase: string,
        sha: string -> string, passphrase: string -> string)
      requires defaults.maxActiveModels >= 1 && defaults.trafficQuotaBytes >= 1
      ensures Valid() && InStep() && store.Mem() == EMPTY && store.file == cacheFile
    {
      this.defaults := defaults;
      this.client := client;
      store := new StateStore(RelayConfig(relayId, mac, lib), cacheFile);
      admission := new Admission.AdmissionController(defaults.maxActiveModels);
      supervisor := new Supervisors.WorkerSupervisor(inputBase, defaults.maxActiveModels, sha);
      traffic := new Traffic.TrafficAccountant(trafficFile, defaults.trafficQuotaBytes, readTime);
      reconciler := new PathReconcilers.PathReconciler(client, passphrase, registry);
      appliedLimitRevision := None;
      RelayParsesLimits(relayId, mac, lib);
      RelayParsesContent(relayId, mac, lib);
    }

    ghost predicate Valid()
      reads this, store, traffic
    {
      && defaults.maxActiveModels >= 1 && defaults.trafficQuotaBytes >= 1
      && reconciler.client == client && traffic.Valid()
      && ParsesLimits(store.cfg) && ParsesContent(store.cfg) && MemoryIsParsed(store.cfg, store.Mem())
    }

    /** The cache can be loaded from this time on, and memory holds what it holds. */
    ghost predicate Steady(clock: int)
      reads store
    {
      Consistent(store.cfg, Node(Some(store.Mem()), store.file), clock)
    }

    /** Every component enforces exactly the limits of the state that the store serves. */
    ghost predicate InStep()
      reads this, store, admission, supervisor, traffic
    {
      && InForce(admission.maxActiveModels, traffic.quotaBytes, appliedLimitRevision) ==
         LimitsFor(store.Snapshot(), defaults)
      && supervisor.maxActiveModels == admission.maxActiveModels
    }

    /** What the three components enforce, member by member: the limits of the state, or the defaults without them. */
    ghost predicate Enforces(state: Option<DesiredState>)
      reads this, admission, supervisor, traffic
    {
      && supervisor.maxActiveModels == admission.maxActiveModels
      && if state.Some? && state.value.schemaVersion == 2 && state.value.limits.Some? then
           && admission.maxActiveModels == state.value.limits.value.maxServerConnections
           && traffic.quotaBytes == state.value.limits.value.monthlyTrafficQuotaBytes
           && appliedLimitRevision == Some(state.value.generation)
         else
           && admission.maxActiveModels == defaults.maxActiveModels
           && traffic.quotaBytes == defaults.trafficQuotaBytes
           && appliedLimitRevision == None
    }

    lemma InStepEnforces()
      requires Valid() && InStep()
      ensures Enforces(store.state)
    {
    }

    /** Applies limits; the result is the error that a limit below one would raise. */
    method ApplyLimits(state: DesiredState) returns (r: Result<()>)
      requires Valid() && GoodLimits(state)
      modifies this`appliedLimitRevision, admission`maxActiveModels, supervisor`maxActiveModels, traffic`quotaBytes
      ensures Valid() && r.Ok?
      ensures InForce(admission.maxActiveModels, traffic.quotaBytes, appliedLimitRevision) ==
              LimitsFor(Some(state), defaults)
      ensures Enforces(Some(state))
      ensures supervisor.maxActiveModels == admission.maxActiveModels
    {
      var limits := state.limits;
      var maxConnections := if limits.Some? then limits.value.maxServerConnections else defaults.maxActiveModels;
      var quotaBytes := if limits.Some? then limits.value.monthlyTrafficQuotaBytes else defaults.trafficQuotaBytes;
      r := admission.SetMaxServerConnections(maxConnections);
      if r.Err? {
        return;
      }
      r := supervisor.SetMaxServerConnections(maxConnections);
      if r.Err? {
        return;
      }
      r := traffic.SetQuotaBytes(quotaBytes);
      if r.Err? {
        return;
      }
      appliedLimitRevision := if limits.Some? then Some(limits.value.revision) else None;
    }

    /** Loads the cache before the loops start. False when an error escapes that start does not handle. */
    method Start(now: int) returns (started: bool)
      requires Valid() && InStep() && store.Mem() == EMPTY
      modifies this`appliedLimitRevision, store, admission`maxActiveModels, supervisor`maxActiveModels,
               traffic`quotaBytes
      ensures Valid() && InStep()
      ensures !started <==> ReadCache(store.cfg, store.file, now) == Err(Fault)
      ensures Enforces(store.state)
      ensures match ReadCache(store.cfg, store.file, now)
              case Ok(Some((_, s))) => store.state == Some(s)
              case _ => store.state == None
      ensures ReadCache(store.cfg, store.file, now).Ok? ==> started && Steady(now)
    {
      var loaded := store.LoadCache(now);
      if loaded.Err? {
        return loaded.error == Invalid;
      }
      if loaded.value.Some? {
        LoadedIsParsed(store.cfg, store.file, now);
        var applied := ApplyLimits(loaded.value.value);
      }
      return true;
    }

    /** What a turn does with the state it accepted: its limits, then its paths. */
    method Enact(state: DesiredState)
      requires Valid() && store.state == Some(state)
      modifies this`appliedLimitRevision, store`lastError, admission`maxActiveModels, supervisor`maxActiveModels,
               traffic`quotaBytes, reconciler, client
      ensures Valid() && InStep() && Enforces(Some(state))
      ensures var attempt := PathReconcilers.ReconcileOnce(
                old(reconciler.View()), PathReconcilers.TargetsOf(state.streams, reconciler.passphrase));
              && reconciler.View() == attempt.world
              && store.lastError == if attempt.ok then old(store.lastError) else Some("MediaMTXError")
    {
      hide PathReconcilers.ReconcileOnce, PathReconcilers.TargetsOf, ParsesLimits, ParsesContent, LimitsFor, Enforces;
      ParsedLimits(store.cfg, store.Mem());
      var applied := ApplyLimits(state);
      var reconciled := reconciler.Reconcile(state.streams);
      if !reconciled {
        store.MarkError("MediaMTXError");
      }
      InStepEnforces();
    }

    /** The body of the state loop. False when the thread or the process ends in it. */
    method StateTurn(turn: Turn, ghost clock: int) returns (goesOn: bool)
      requires Valid() && InStep()
      modifies this`appliedLimitRevision, store, admission`maxActiveModels, supervisor`maxActiveModels,
               traffic`quotaBytes, reconciler, client
      ensures var verdict := VerdictIn(store.cfg, old(store.Mem()), turn);
              && (goesOn <==> !EndsIn(verdict, turn.cut))
              && (goesOn || verdict.value.Refuse? ==> Valid() && InStep() && Enforces(store.state))
              && (!goesOn ==>
                    && reconciler.View() == old(reconciler.View()) && appliedLimitRevision == old(appliedLimitRevision)
                    && admission.View() == old(admission.View()) && traffic.quotaBytes == old(traffic.quotaBytes)
                    && if verdict.value.Refuse? then store.Mem() == old(store.Mem()) && store.file == old(store.file)
                       else
                         store.file == if turn.cut == BeforeRename then old(store.file)
                                       else Some(Canonical(Fetch(turn.answer.value).value)))
      ensures !goesOn ==> CanEnd(store.cfg, turn)
      ensures goesOn && old(Steady(clock)) && clock <= turn.now && StorableTurn(turn) ==>
                Steady(turn.now) && MovesUp(old(store.state), store.state)
      ensures var accepted := AcceptedIn(VerdictIn(store.cfg, old(store.Mem()), turn));
              goesOn ==>
                match accepted
                case None =>
                  && store.state == old(store.state) && store.file == old(store.file)
                  && reconciler.View() == old(reconciler.View())
                  && store.lastError == Some(
                       if VerdictIn(store.cfg, old(store.Mem()), turn).None? then "StateFetchError"
                       else "StateValidationError")
                case Some(s) =>
                  var attempt := PathReconcilers.ReconcileOnce(
                    old(reconciler.View()), PathReconcilers.TargetsOf(s.streams, reconciler.passphrase));
                  && store.state == accepted && reconciler.View() == attempt.world
                  && store.lastError == if attempt.ok then None else Some("MediaMTXError")
    {
      hide Fetch, Decide, AfterAccept, Consistent, PathReconcilers.ReconcileOnce, PathReconcilers.TargetsOf;
      hide CanEnd, ValidateEnvelope, Judge, StorableTurn, MovesUp, LimitsFor, Enforces, ParsesLimits, ParsesContent;
      ghost var before, file := store.Mem(), store.file;
      var fetched := if turn.answer.None? then Err(Invalid) else Fetch(turn.answer.value);
      if fetched.Err? {
        store.MarkError("StateFetchError");
        SteadyWithoutAccept(before, store.Mem(), file, clock, turn);
        InStepEnforces();
        return true;
      }
      AcceptedIsServed(store.cfg, store.Mem(), fetched.value, turn.now);
      EndsMeansCanEnd(store.cfg, store.Mem(), turn);
      SteadyAfterAccept(before, file, fetched.value, clock, turn);
      var outcome := store.AcceptRemote(fetched.value, turn.now, turn.cut);
      ghost var accepted := store.Mem();
      match outcome
      case Died => return false;
      case Raised(e) =>
        if e == Fault {
          InStepEnforces();
          return false;
        }
        store.MarkError("StateValidationError");
        SteadyWithoutAccept(before, store.Mem(), file, clock, turn);
        InStepEnforces();
        return true;
      case Returned(state) =>
        Enact(state);
        ConsistentIgnoresNotices(store.cfg, accepted, store.Mem(), store.file, turn.now);
        return true;
    }

    lemma SteadyWithoutAccept(before: Memory, after: Memory, file: Option<string>, clock: int, turn: Turn)
      requires before.state == after.state && before.envelope == after.envelope
      ensures Consistent(store.cfg, Node(Some(before), file), clock) && clock <= turn.now ==>
                Consistent(store.cfg, Node(Some(after), file), turn.now) && MovesUp(before.state, after.state)
    {
      if Consistent(store.cfg, Node(Some(before), file), clock) && clock <= turn.now {
        ConsistentStaysConsistent(store.cfg, Node(Some(before), file), clock, turn.now);
        ConsistentIgnoresNotices(store.cfg, before, after, file, turn.now);
      }
    }

    lemma SteadyAfterAccept(before: Memory, file: Option<string>, envelope: Json, clock: int, turn: Turn)
      requires ParsesContent(store.cfg) && turn.answer.Some? && Fetch(turn.answer.value) == Ok(envelope)
      ensures var n := Node(Some(before), file);
              var after := AfterAccept(store.cfg, n, envelope, turn.now, turn.cut);
              Consistent(store.cfg, n, clock) && clock <= turn.now && StorableTurn(turn) ==>
                && Consistent(store.cfg, after, turn.now)
                && (after.mem.Some? ==> MovesUp(before.state, after.mem.value.state))
    {
      hide Fetch, AfterAccept, Consistent, FitsCache;
      var n := Node(Some(before), file);
      if Consistent(store.cfg, n, clock) && clock <= turn.now && StorableTurn(turn) {
        ConsistentStaysConsistent(store.cfg, n, clock, turn.now);
        StorableFits(turn);
        AcceptServesUpward(store.cfg, n, envelope, turn.now, turn.cut);
      }
    }

    /** The loop: whenever it comes back to its head, the limits are in step with the state. From a steady store, with
        a clock that does not go back, the served state only moves up, and so does the revision of limits in force. */
    method StateLoop(turns: seq<Turn>, ghost clock: int) returns (completed: nat)
      requires Valid() && InStep()
      modifies this`appliedLimitRevision, store, admission`maxActiveModels, supervisor`maxActiveModels,
               traffic`quotaBytes, reconciler, client
      ensures completed <= |turns|
      ensures completed == |turns| ==> Valid() && InStep() && Enforces(store.state)
      ensures completed < |turns| ==> CanEnd(store.cfg, turns[completed])
      ensures completed == |turns| && old(Steady(clock)) && IsOrdered(turns, clock) ==>
                && Steady(LastTurn(turns, clock)) && MovesUp(old(store.state), store.state)
                && (old(appliedLimitRevision).Some? && appliedLimitRevision.Some? ==>
                      old(appliedLimitRevision).value <= appliedLimitRevision.value)
    {
      ghost var started := store.state;
      completed := 0;
      while completed < |turns|
        invariant completed <= |turns|
        invariant Valid() && InStep()
        invariant old(Steady(clock)) && IsOrdered(turns, clock) ==>
                    Steady(LastTurn(turns[..completed], clock)) && MovesUp(started, store.state)
      {
        hide Consistent, Upward, IsOrdered, LimitsFor, VerdictIn, EndsIn, AcceptedIn, PathReconcilers.ReconcileOnce;
        ghost var last, was := LastTurn(turns[..completed], clock), store.state;
        if IsOrdered(turns, clock) {
          TurnIsOrdered(turns, completed, clock);
        }
        var goesOn := StateTurn(turns[completed], last);
        if !goesOn {
          return;
        }
        if old(Steady(clock)) && IsOrdered(turns, clock) {
          MovesUpTwice(started, was, store.state);
        }
        completed := completed + 1;
      }
      assert turns[..|turns|] == turns;
      InStepEnforces();
      if old(Steady(clock)) && IsOrdered(turns, clock) {
        RevisionMovesUp(started, store.state, defaults);
      }
    }
  }

  lemma TurnIsOrdered(turns: seq<Turn>, k: nat, clock: int)
    requires k < |turns| && IsOrdered(turns, clock)
    ensures LastTurn(turns[..k], clock) <= turns[k].now && StorableTurn(turns[k])
    ensures LastTurn(turns[..k + 1], clock) == turns[k].now
  {
  }

  lemma RevisionMovesUp(was: Option<DesiredState>, now: Option<DesiredState>, defaults: Defaults)
    requires MovesUp(was, now) && (was.Some? ==> GoodLimits(was.value)) && (now.Some? ==> GoodLimits(now.value))
    ensures var a, b := LimitsFor(was, defaults).revision, LimitsFor(now, defaults).revision;
            a.Some? && b.Some? ==> a.value <= b.value
  {
  }

  /** The clock of the turns never goes back, and each of them is storable. */
  predicate IsOrdered(turns: seq<Turn>, clock: int) {
    && (forall i | 0 <= i < |turns| :: clock <= turns[i].now && StorableTurn(turns[i]))
    && forall i, j | 0 <= i < j < |turns| :: turns[i].now <= turns[j].now
  }

  function LastTurn(turns: seq<Turn>, clock: int): int {
    if turns == [] then clock else turns[|turns| - 1].now
  }

  lemma MovesUpTwice(a: Option<DesiredState>, b: Option<DesiredState>, c: Option<DesiredState>)
    requires MovesUp(a, b) && MovesUp(b, c)
    ensures MovesUp(a, c)
  {
  }

  lemma LoadedIsParsed(cfg: Config, file: Option<string>, now: int)
    requires ReadCache(cfg, file, now).Ok? && ReadCache(cfg, file, now).value.Some?
    ensures MemoryIsParsed(cfg, AfterLoad(cfg, file, EMPTY, now))
  {
    ValidatedPayload(cfg, Loads(file.value).value, now, true);
  }
}
