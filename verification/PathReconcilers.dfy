/** The reconciler of MediaMTX path configurations: it drives a remote configuration that others also use to a
    target, and touches only the names it owns. */
module PathReconcilers {
  import opened Wrappers
  import opened Json
  import opened Models

  type PathConfig = map<string, Json>

  // ---------- the target ----------

  datatype Target = Target(path: string, values: PathConfig)

  function ValuesFor(s: Stream, passphrase: string -> string): PathConfig {
    map["source" := Str("publisher"), "overridePublisher" := Bool(false), "maxReaders" := Num(8),
        "record" := Bool(false), "srtPublishPassphrase" := Str(passphrase(s.streamId))]
  }

  /** The enabled streams, in the order of the state. */
  function TargetsOf(streams: seq<Stream>, passphrase: string -> string): seq<Target> {
    if streams == [] then []
    else
      (if streams[0].enabled then [Target(streams[0].Path(), ValuesFor(streams[0], passphrase))] else []) +
      TargetsOf(streams[1..], passphrase)
  }

  function PathsOf(targets: seq<Target>): set<string> {
    set t | t in targets :: t.path
  }

  predicate DistinctPaths(targets: seq<Target>) {
    forall i, j | 0 <= i < j < |targets| :: targets[i].path != targets[j].path
  }

  /** Names that the client agrees to put into a request. */
  predicate Safe(path: string) {
    "live/" <= path && IsToken(path[5..], 8, 128)
  }

  /** These are the paths of streams, and nothing else. */
  lemma SafeIsExact(path: string)
    ensures Safe(path) <==> exists id :: IsToken(id, 8, 128) && path == "live/" + id
  {
    if Safe(path) {
      assert path == path[..5] + path[5..];
      assert path == "live/" + path[5..];
    }
    if id :| IsToken(id, 8, 128) && path == "live/" + id {
      assert path[5..] == id;
    }
  }

  /** Booleans and numbers that the source language takes as equal. */
  function Normal(v: Json): Json {
    if v.Bool? then Num(if v.b then 1 else 0) else v
  }

  predicate Carries(config: PathConfig, values: PathConfig) {
    forall k | k in values :: k in config && Normal(config[k]) == Normal(values[k])
  }

  // ---------- the registry file ----------

  function Names(paths: seq<string>): seq<Json> {
    seq(|paths|, i requires 0 <= i < |paths| => Str(paths[i]))
  }

  /** What is saved: the owned names, in order. */
  function RegistryText(managed: set<string>): string {
    Canonical(Obj(map["schema_version" := Num(1), "paths" := Arr(Names(SortedKeys(managed)))]))
  }

  predicate IsRegistry(file: Option<string>) {
    && file.Some? && Loads(file.value).Some? && Loads(file.value).value.Obj?
    && var f := Loads(file.value).value.fields;
       "schema_version" in f && EqualsNumber(f["schema_version"], 1) && "paths" in f && f["paths"].Arr?
  }

  /** Which names a file makes owned; none when it is missing, unreadable or not a registry. */
  function LoadManaged(file: Option<string>): set<string> {
    if IsRegistry(file) then set v | v in Loads(file.value).value.fields["paths"].items && v.Str? :: v.s else {}
  }

  /** What was saved is what the next process owns. */
  lemma RegistryRoundTrip(managed: set<string>)
    ensures LoadManaged(Some(RegistryText(managed))) == managed
  {
    var paths := SortedKeys(managed);
    var f := map["schema_version" := Num(1), "paths" := Arr(Names(paths))];
    RoundTrip(Obj(f));
    NamesHold(paths);
  }

  lemma NamesHold(paths: seq<string>)
    ensures (set v | v in Names(paths) && v.Str? :: v.s) == set p | p in paths
  {
    var found := set v | v in Names(paths) && v.Str? :: v.s;
    forall p | p in paths ensures p in found {
      var i :| 0 <= i < |paths| && paths[i] == p;
      assert Names(paths)[i] == Str(p);
    }
  }

  // ---------- one attempt, as a function ----------

  datatype Mutation = Added(path: string) | Patched(path: string) | Deleted(path: string)

  /** The remote configuration, the owned names in memory, the text of the registry file, and how many client calls
      succeed before one fails without effect (None: all of them). `defaults` is what the server fills in. */
  datatype World = World(
    paths: map<string, PathConfig>, managed: set<string>, file: Option<string>, fails: Option<nat>,
    mutations: seq<Mutation>, defaults: PathConfig)

  datatype Step = Step(world: World, ok: bool)

  /** The world after one client call that succeeds. */
  function Call(w: World): Option<World> {
    match w.fails
    case None => Some(w)
    case Some(n) => if n == 0 then None else Some(w.(fails := Some(n - 1)))
  }

  function EnsurePath(w: World, t: Target): Step {
    if !Safe(t.path) then Step(w, false)
    else
      match Call(w)
      case None => Step(w, false)
      case Some(got) =>
        if t.path !in got.paths then
          match Call(got)
          case None => Step(got, false)
          case Some(next) =>
            Step(next.(paths := next.paths[t.path := next.defaults + t.values], managed := next.managed + {t.path},
                       mutations := next.mutations + [Added(t.path)]), true)
        else if t.path !in got.managed then Step(got, false)
        else if Carries(got.paths[t.path], t.values) then Step(got, true)
        else
          match Call(got)
          case None => Step(got, false)
          case Some(next) =>
            Step(next.(paths := next.paths[t.path := next.paths[t.path] + t.values],
                       mutations := next.mutations + [Patched(t.path)]), true)
  }

  function EnsureAll(w: World, targets: seq<Target>): Step
    decreases |targets|
  {
    if targets == [] then Step(w, true)
    else
      var first := EnsurePath(w, targets[0]);
      if !first.ok then first else EnsureAll(first.world, targets[1..])
  }

  function RemovePath(w: World, path: string): Step {
    if !Safe(path) then Step(w, false)
    else
      match Call(w)
      case None => Step(w, false)
      case Some(got) =>
        if path !in got.paths then Step(got.(managed := got.managed - {path}), true)
        else
          match Call(got)
          case None => Step(got, false)
          case Some(next) =>
            Step(next.(paths := next.paths - {path}, managed := next.managed - {path},
                       mutations := next.mutations + [Deleted(path)]), true)
  }

  function RemoveAll(w: World, stale: seq<string>): Step
    decreases |stale|
  {
    if stale == [] then Step(w, true)
    else
      var first := RemovePath(w, stale[0]);
      if !first.ok then first else RemoveAll(first.world, stale[1..])
  }

  function Stale(w: World, targets: seq<Target>): seq<string> {
    SortedKeys(w.managed - PathsOf(targets))
  }

  function ReconcileOnce(w: World, targets: seq<Target>): Step {
    var ensured := EnsureAll(w, targets);
    if !ensured.ok then ensured
    else
      var removed := RemoveAll(ensured.world, Stale(ensured.world, targets));
      if !removed.ok then removed else Step(removed.world.(file := Some(RegistryText(removed.world.managed))), true)
  }

  // ---------- ownership ----------

  /** What is present and not owned. */
  function Foreign(w: World): map<string, PathConfig> {
    map p | p in w.paths && p !in w.managed :: w.paths[p]
  }

  predicate AllSafe(names: set<string>) {
    forall p | p in names :: Safe(p)
  }

  lemma EnsurePathIsOwnerly(w: World, t: Target)
    ensures var after := EnsurePath(w, t).world;
            && Foreign(after) == Foreign(w) && after.file == w.file && after.defaults == w.defaults
            && (AllSafe(w.managed) ==> AllSafe(after.managed))
            && (w.fails.None? ==> after.fails.None?)
  {
    var after := EnsurePath(w, t).world;
    assert Foreign(after).Keys == Foreign(w).Keys;
  }

  lemma RemovePathIsOwnerly(w: World, path: string)
    requires path in w.managed
    ensures var after := RemovePath(w, path).world;
            && Foreign(after) == Foreign(w) && after.file == w.file && after.defaults == w.defaults
            && after.managed <= w.managed && (w.fails.None? ==> after.fails.None?)
  {
    var after := RemovePath(w, path).world;
    assert Foreign(after).Keys == Foreign(w).Keys;
  }

  lemma {:induction false} EnsureAllIsOwnerly(w: World, targets: seq<Target>)
    ensures var after := EnsureAll(w, targets).world;
            && Foreign(after) == Foreign(w) && after.file == w.file && after.defaults == w.defaults
            && (AllSafe(w.managed) ==> AllSafe(after.managed))
            && (w.fails.None? ==> after.fails.None?)
    decreases |targets|
  {
    if targets != [] {
      EnsurePathIsOwnerly(w, targets[0]);
      EnsureAllIsOwnerly(EnsurePath(w, targets[0]).world, targets[1..]);
    }
  }

  predicate NoRepeats(names: seq<string>) {
    forall i, j | 0 <= i < j < |names| :: names[i] != names[j]
  }

  lemma {:induction false} RemoveAllIsOwnerly(w: World, stale: seq<string>)
    requires NoRepeats(stale) && forall p | p in stale :: p in w.managed
    ensures var after := RemoveAll(w, stale).world;
            && Foreign(after) == Foreign(w) && after.file == w.file && after.defaults == w.defaults
            && after.managed <= w.managed && (w.fails.None? ==> after.fails.None?)
    decreases |stale|
  {
    if stale != [] {
      RemovePathIsOwnerly(w, stale[0]);
      var first := RemovePath(w, stale[0]);
      if first.ok {
        assert forall p | p in stale[1..] :: p != stale[0];
        RemoveAllIsOwnerly(first.world, stale[1..]);
      }
    }
  }

  lemma StaleFacts(w: World, targets: seq<Target>)
    ensures NoRepeats(Stale(w, targets))
    ensures forall p :: p in Stale(w, targets) <==> p in w.managed && p !in PathsOf(targets)
  {
    var stale := Stale(w, targets);
    forall i, j | 0 <= i < j < |stale| ensures stale[i] != stale[j] {
      BeforeIsTotal(stale[i], stale[j]);
    }
  }

  /** Whether an attempt completes, is refused or breaks off at any call: every path that was present and not
      owned is still there as it was, still not owned, and there is no other such path. */
  lemma ForeignPathsAreUntouched(w: World, targets: seq<Target>)
    ensures Foreign(ReconcileOnce(w, targets).world) == Foreign(w)
    ensures AllSafe(w.managed) ==> AllSafe(ReconcileOnce(w, targets).world.managed)
  {
    EnsureAllIsOwnerly(w, targets);
    var ensured := EnsureAll(w, targets).world;
    StaleFacts(ensured, targets);
    RemoveAllIsOwnerly(ensured, Stale(ensured, targets));
    var removed := RemoveAll(ensured, Stale(ensured, targets)).world;
    assert Foreign(removed.(file := Some(RegistryText(removed.managed)))) == Foreign(removed);
  }

  /** Every mutation that is new in `after` hit a path that was not foreign in `w`. */
  predicate MutatesOnlyOwn(w: World, after: World) {
    && w.mutations <= after.mutations
    && forall i | |w.mutations| <= i < |after.mutations| :: after.mutations[i].path !in Foreign(w)
  }

  lemma MutationsCompose(a: World, b: World, c: World)
    requires MutatesOnlyOwn(a, b) && MutatesOnlyOwn(b, c) && Foreign(a) == Foreign(b)
    ensures MutatesOnlyOwn(a, c)
  {
    forall i | |a.mutations| <= i < |c.mutations| ensures c.mutations[i].path !in Foreign(a) {
      if i < |b.mutations| {
        assert c.mutations[i] == b.mutations[i];
      }
    }
  }

  lemma {:induction false} EnsureAllMutatesOnlyOwn(w: World, targets: seq<Target>)
    ensures MutatesOnlyOwn(w, EnsureAll(w, targets).world)
    decreases |targets|
  {
    if targets != [] {
      var first := EnsurePath(w, targets[0]).world;
      EnsurePathIsOwnerly(w, targets[0]);
      assert MutatesOnlyOwn(w, first);
      EnsureAllMutatesOnlyOwn(first, targets[1..]);
      MutationsCompose(w, first, EnsureAll(first, targets[1..]).world);
    }
  }

  lemma {:induction false} RemoveAllMutatesOnlyOwn(w: World, stale: seq<string>)
    requires NoRepeats(stale) && forall p | p in stale :: p in w.managed
    ensures MutatesOnlyOwn(w, RemoveAll(w, stale).world)
    decreases |stale|
  {
    if stale != [] {
      var first := RemovePath(w, stale[0]);
      RemovePathIsOwnerly(w, stale[0]);
      assert MutatesOnlyOwn(w, first.world);
      if first.ok {
        assert forall p | p in stale[1..] :: p != stale[0];
        RemoveAllMutatesOnlyOwn(first.world, stale[1..]);
        MutationsCompose(w, first.world, RemoveAll(first.world, stale[1..]).world);
      }
    }
  }

  /** No path that is present and not owned is ever added, patched or deleted. */
  lemma ReconcileMutatesOnlyOwn(w: World, targets: seq<Target>)
    ensures MutatesOnlyOwn(w, ReconcileOnce(w, targets).world)
  {
    EnsureAllMutatesOnlyOwn(w, targets);
    EnsureAllIsOwnerly(w, targets);
    var ensured := EnsureAll(w, targets).world;
    var stale := Stale(ensured, targets);
    StaleFacts(ensured, targets);
    RemoveAllMutatesOnlyOwn(ensured, stale);
    MutationsCompose(w, ensured, RemoveAll(ensured, stale).world);
  }

  // ---------- convergence ----------

  /** The target is reached: every wanted path is there with the wanted values and owned, nothing else is owned,
      and the registry says so. */
  predicate Reached(w: World, targets: seq<Target>) {
    && (forall i | 0 <= i < |targets| ::
          targets[i].path in w.paths && Carries(w.paths[targets[i].path], targets[i].values))
    && w.managed == PathsOf(targets) && w.file == Some(RegistryText(w.managed))
  }

  /** A path that is neither owned nor wanted keeps its configuration, or its absence. */
  ghost predicate SameElsewhere(w: World, after: World, names: set<string>) {
    forall p | p !in names ::
      && (p in w.paths <==> p in after.paths)
      && (p in w.paths ==> after.paths[p] == w.paths[p])
      && (p in w.managed <==> p in after.managed)
  }

  lemma EnsurePathFacts(w: World, t: Target)
    ensures var step := EnsurePath(w, t);
            && SameElsewhere(w, step.world, {t.path})
            && (step.ok ==> t.path in step.world.paths && t.path in step.world.managed
                            && Carries(step.world.paths[t.path], t.values))
            && (w.fails.None? ==> (step.ok <==> Safe(t.path) && t.path !in Foreign(w)))
            && (step.ok ==> Safe(t.path))
  {
  }

  lemma SameElsewhereComposes(a: World, b: World, c: World, names: set<string>, more: set<string>)
    requires SameElsewhere(a, b, names) && SameElsewhere(b, c, more)
    ensures SameElsewhere(a, c, names + more)
  {
  }

  lemma PathsOfTail(targets: seq<Target>)
    requires targets != []
    ensures PathsOf(targets) == {targets[0].path} + PathsOf(targets[1..])
  {
    assert targets == [targets[0]] + targets[1..];
  }

  lemma {:induction false} EnsureAllFacts(w: World, targets: seq<Target>)
    requires DistinctPaths(targets)
    ensures var step := EnsureAll(w, targets);
            && SameElsewhere(w, step.world, PathsOf(targets))
            && (step.ok ==> forall i | 0 <= i < |targets| ::
                  && targets[i].path in step.world.paths && targets[i].path in step.world.managed
                  && Carries(step.world.paths[targets[i].path], targets[i].values))
    decreases |targets|
  {
    if targets != [] {
      var t, rest := targets[0], targets[1..];
      var first := EnsurePath(w, t);
      EnsurePathFacts(w, t);
      PathsOfTail(targets);
      if first.ok {
        EnsureAllFacts(first.world, rest);
        var step := EnsureAll(first.world, rest);
        SameElsewhereComposes(w, first.world, step.world, {t.path}, PathsOf(rest));
        assert t.path !in PathsOf(rest);
        forall i | step.ok && 0 <= i < |targets|
          ensures && targets[i].path in step.world.paths && targets[i].path in step.world.managed
                  && Carries(step.world.paths[targets[i].path], targets[i].values)
        {
          assert i > 0 ==> targets[i] == rest[i - 1];
        }
      } else {
        assert SameElsewhere(w, first.world, PathsOf(targets));
      }
    }
  }

  lemma {:induction false} EnsureAllSucceedsExactly(w: World, targets: seq<Target>)
    requires w.fails.None?
    ensures EnsureAll(w, targets).ok <==>
            forall i | 0 <= i < |targets| :: Safe(targets[i].path) && targets[i].path !in Foreign(w)
    decreases |targets|
  {
    if targets != [] {
      var first := EnsurePath(w, targets[0]);
      EnsurePathFacts(w, targets[0]);
      EnsurePathIsOwnerly(w, targets[0]);
      if first.ok {
        EnsureAllSucceedsExactly(first.world, targets[1..]);
        assert forall i | 0 < i < |targets| :: targets[i] == targets[1..][i - 1];
      }
    }
  }

  lemma {:induction false} RemoveAllFacts(w: World, stale: seq<string>)
    requires NoRepeats(stale)
    ensures var step := RemoveAll(w, stale);
            && SameElsewhere(w, step.world, set p | p in stale)
            && (step.ok ==> forall p | p in stale :: p !in step.world.paths && p !in step.world.managed)
            && (w.fails.None? ==> (step.ok <==> forall p | p in stale :: Safe(p)))
    decreases |stale|
  {
    if stale != [] {
      var p, rest := stale[0], stale[1..];
      var first := RemovePath(w, p);
      assert SameElsewhere(w, first.world, {p});
      assert (set q | q in stale) == {p} + set q | q in rest;
      if first.ok {
        RemoveAllFacts(first.world, rest);
        SameElsewhereComposes(w, first.world, RemoveAll(first.world, rest).world, {p}, set q | q in rest);
        assert p !in rest;
      }
    }
  }

  /** Whatever completes, after however many failures before, has reached the target: stale owned paths are gone,
      and every path that was neither owned nor wanted is as it was. */
  lemma CompletedMeansReached(w: World, targets: seq<Target>)
    requires DistinctPaths(targets) && ReconcileOnce(w, targets).ok
    ensures var after := ReconcileOnce(w, targets).world;
            && Reached(after, targets)
            && (forall p | p in w.managed && p !in PathsOf(targets) :: p !in after.paths)
            && SameElsewhere(w, after, w.managed + PathsOf(targets))
  {
    hide RegistryText, EnsureAll, RemoveAll, Carries;
    EnsureAllFacts(w, targets);
    var ensured := EnsureAll(w, targets).world;
    var stale := Stale(ensured, targets);
    StaleFacts(ensured, targets);
    RemoveAllFacts(ensured, stale);
    var removed := RemoveAll(ensured, stale).world;
    SameElsewhereComposes(w, ensured, removed, PathsOf(targets), set p | p in stale);
    forall p ensures p in removed.managed <==> p in PathsOf(targets) {
      if p in PathsOf(targets) {
        var i :| 0 <= i < |targets| && targets[i].path == p;
        assert p !in stale && p in ensured.managed;
      }
    }
    forall p | p in w.managed && p !in PathsOf(targets) ensures p !in removed.paths {
      assert p in ensured.managed;
      assert p in stale;
    }
    forall p | p !in w.managed + PathsOf(targets) ensures p !in stale {
    }
  }

  /** Without failures, an attempt completes exactly when no wanted path is foreign and every name is one the
      client accepts. */
  lemma CompletesExactly(w: World, targets: seq<Target>)
    requires w.fails.None? && DistinctPaths(targets)
    requires AllSafe(PathsOf(targets))
    ensures ReconcileOnce(w, targets).ok <==>
            (forall p | p in PathsOf(targets) :: p !in Foreign(w)) && AllSafe(w.managed - PathsOf(targets))
  {
    EnsureAllSucceedsExactly(w, targets);
    EnsureAllFacts(w, targets);
    EnsureAllIsOwnerly(w, targets);
    var ensured := EnsureAll(w, targets);
    var stale := Stale(ensured.world, targets);
    StaleFacts(ensured.world, targets);
    RemoveAllFacts(ensured.world, stale);
    assert forall i | 0 <= i < |targets| :: targets[i].path in PathsOf(targets);
    if ensured.ok {
      forall p ensures p in stale <==> p in w.managed - PathsOf(targets) {
      }
    }
  }

  /** Once the target is reached, reconciling again changes nothing: no addition, no patch, no deletion. */
  lemma SecondAttemptIsQuiet(w: World, targets: seq<Target>)
    requires w.fails.None? && Reached(w, targets) && AllSafe(PathsOf(targets))
    ensures ReconcileOnce(w, targets) == Step(w, true)
  {
    assert forall i | 0 <= i < |targets| :: targets[i].path in PathsOf(targets);
    EnsureAllQuiet(w, targets);
    assert w.managed - PathsOf(targets) == {};
  }

  lemma {:induction false} EnsureAllQuiet(w: World, targets: seq<Target>)
    requires w.fails.None?
    requires forall i | 0 <= i < |targets| ::
               && Safe(targets[i].path) && targets[i].path in w.paths && targets[i].path in w.managed
               && Carries(w.paths[targets[i].path], targets[i].values)
    ensures EnsureAll(w, targets) == Step(w, true)
    decreases |targets|
  {
    if targets != [] {
      assert EnsurePath(w, targets[0]) == Step(w, true);
      EnsureAllQuiet(w, targets[1..]);
    }
  }

  // ---------- any number of failed attempts ----------

  datatype Attempt = Attempt(targets: seq<Target>, fails: Option<nat>)

  /** Attempts in one process, for different states, each breaking off wherever its failing call is. */
  function RunAttempts(w: World, attempts: seq<Attempt>): World
    decreases |attempts|
  {
    if attempts == [] then w
    else RunAttempts(ReconcileOnce(w.(fails := attempts[0].fails), attempts[0].targets).world, attempts[1..])
  }

  lemma {:induction false} AttemptsLeaveForeignPathsAlone(w: World, attempts: seq<Attempt>)
    ensures Foreign(RunAttempts(w, attempts)) == Foreign(w)
    ensures AllSafe(w.managed) ==> AllSafe(RunAttempts(w, attempts).managed)
    decreases |attempts|
  {
    if attempts != [] {
      var start := w.(fails := attempts[0].fails);
      assert Foreign(start) == Foreign(w);
      ForeignPathsAreUntouched(start, attempts[0].targets);
      AttemptsLeaveForeignPathsAlone(ReconcileOnce(start, attempts[0].targets).world, attempts[1..]);
    }
  }

  /** Over such a history no call ever adds, patches or deletes a path that was present and not owned. */
  lemma {:induction false} AttemptsMutateOnlyOwn(w: World, attempts: seq<Attempt>)
    ensures MutatesOnlyOwn(w, RunAttempts(w, attempts))
    decreases |attempts|
  {
    if attempts != [] {
      var start := w.(fails := attempts[0].fails);
      assert Foreign(start) == Foreign(w);
      var next := ReconcileOnce(start, attempts[0].targets).world;
      ReconcileMutatesOnlyOwn(start, attempts[0].targets);
      ForeignPathsAreUntouched(start, attempts[0].targets);
      AttemptsMutateOnlyOwn(next, attempts[1..]);
      MutationsCompose(w, next, RunAttempts(w, attempts));
    }
  }

  /** After any number of attempts that broke off anywhere, one attempt without failures reaches the full target,
      provided that none of its paths was foreign in the beginning. */
  lemma RecoveryReachesTheTarget(w: World, attempts: seq<Attempt>, targets: seq<Target>)
    requires AllSafe(w.managed) && AllSafe(PathsOf(targets)) && DistinctPaths(targets)
    requires forall p | p in PathsOf(targets) :: p !in Foreign(w)
    ensures var last := RunAttempts(w, attempts).(fails := None);
            && ReconcileOnce(last, targets).ok
            && Reached(ReconcileOnce(last, targets).world, targets)
            && Foreign(ReconcileOnce(last, targets).world) == Foreign(w)
  {
    AttemptsLeaveForeignPathsAlone(w, attempts);
    var last := RunAttempts(w, attempts).(fails := None);
    assert Foreign(last) == Foreign(w);
    CompletesExactly(last, targets);
    CompletedMeansReached(last, targets);
    ForeignPathsAreUntouched(last, targets);
  }

  /** The next process: it owns what the registry file says. */
  function Restarted(w: World): World {
    w.(managed := LoadManaged(w.file))
  }

  /** Without a usable registry a restarted process owns nothing: whatever it attempts, every path that is present
      stays as it is. */
  lemma LostRegistryClaimsNothing(w: World, targets: seq<Target>)
    requires !IsRegistry(w.file)
    ensures Foreign(Restarted(w)) == w.paths
    ensures Foreign(ReconcileOnce(Restarted(w), targets).world) == w.paths
  {
    assert Foreign(Restarted(w)) == w.paths;
    ForeignPathsAreUntouched(Restarted(w), targets);
  }

  /** After a completed attempt a restart owns the same names, so the next attempt is quiet in the new process too. */
  lemma RestartAfterCompletion(w: World, targets: seq<Target>)
    requires DistinctPaths(targets) && ReconcileOnce(w, targets).ok && AllSafe(PathsOf(targets))
    ensures var after := ReconcileOnce(w, targets).world;
            && Restarted(after) == after
            && ReconcileOnce(Restarted(after).(fails := None), targets) == Step(after.(fails := None), true)
  {
    CompletedMeansReached(w, targets);
    var after := ReconcileOnce(w, targets).world;
    RegistryRoundTrip(after.managed);
    assert Reached(after.(fails := None), targets);
    SecondAttemptIsQuiet(after.(fails := None), targets);
  }

  lemma {:induction false} ForeignTargetFails(w: World, targets: seq<Target>, t: Target)
    requires t in targets && t.path in Foreign(w)
    ensures !EnsureAll(w, targets).ok
    decreases |targets|
  {
    var first := EnsurePath(w, targets[0]);
    EnsurePathIsOwnerly(w, targets[0]);
    if targets[0] != t && first.ok {
      assert t in targets[1..];
      ForeignTargetFails(first.world, targets[1..], t);
    }
  }

  /** The memory of the process is needed for that. A crash after a path was added and before the registry was
      saved leaves a path that the next process takes for foreign. From then on every attempt that wants it fails,
      whatever was attempted before and wherever client calls fail. */
  lemma CrashBeforeSaveBlocks(w: World, t: Target, attempts: seq<Attempt>, attempt: Attempt)
    requires w.fails.None? && Safe(t.path) && t.path !in w.paths
    requires t.path !in w.managed && w.managed == LoadManaged(w.file)
    requires exists u :: u in attempt.targets && u.path == t.path
    ensures var added := EnsureAll(w, [t]);
            var restarted := Restarted(added.world);
            var later := RunAttempts(restarted, attempts).(fails := attempt.fails);
            added.ok && t.path in Foreign(restarted) && !ReconcileOnce(later, attempt.targets).ok
  {
    var added := EnsureAll(w, [t]);
    EnsureAllIsOwnerly(w, [t]);
    EnsurePathFacts(w, t);
    assert [t][1..] == [];
    assert added.world == EnsurePath(w, t).world;
    var restarted := Restarted(added.world);
    assert t.path in Foreign(restarted);
    AttemptsLeaveForeignPathsAlone(restarted, attempts);
    var later := RunAttempts(restarted, attempts).(fails := attempt.fails);
    assert Foreign(later) == Foreign(restarted);
    var u :| u in attempt.targets && u.path == t.path;
    ForeignTargetFails(later, attempt.targets, u);
  }

  // ---------- targets of a parsed state ----------

  lemma {:induction false} TargetPaths(streams: seq<Stream>, passphrase: string -> string, p: string)
    ensures p in PathsOf(TargetsOf(streams, passphrase)) <==> exists s | s in streams :: s.enabled && s.Path() == p
  {
    if streams != [] {
      TargetPaths(streams[1..], passphrase, p);
      assert streams == [streams[0]] + streams[1..];
      var tail := TargetsOf(streams[1..], passphrase);
      if streams[0].enabled {
        var all := TargetsOf(streams, passphrase);
        assert all[0].path == streams[0].Path() && all[1..] == tail;
        PathsOfTail(all);
      } else {
        assert TargetsOf(streams, passphrase) == tail;
      }
    }
  }

  /** The five values, member by member; booleans and numbers are compared as the source language does. */
  predicate HasFiveValues(config: PathConfig, secret: string) {
    && "source" in config && config["source"] == Str("publisher")
    && "overridePublisher" in config && EqualsNumber(config["overridePublisher"], 0)
    && "maxReaders" in config && EqualsNumber(config["maxReaders"], 8)
    && "record" in config && EqualsNumber(config["record"], 0)
    && "srtPublishPassphrase" in config && config["srtPublishPassphrase"] == Str(secret)
  }

  lemma CarriesIsExact(config: PathConfig, s: Stream, passphrase: string -> string)
    ensures Carries(config, ValuesFor(s, passphrase)) <==> HasFiveValues(config, passphrase(s.streamId))
  {
    var values := ValuesFor(s, passphrase);
    assert values.Keys == {"source", "overridePublisher", "maxReaders", "record", "srtPublishPassphrase"};
    assert Carries(config, values) <==>
           forall k | k in values.Keys :: k in config && Normal(config[k]) == Normal(values[k]);
  }

  lemma {:induction false} TargetsHold(streams: seq<Stream>, passphrase: string -> string, t: Target)
    ensures t in TargetsOf(streams, passphrase) <==>
            exists s | s in streams :: s.enabled && t == Target("live/" + s.streamId, ValuesFor(s, passphrase))
  {
    if streams != [] {
      TargetsHold(streams[1..], passphrase, t);
      assert streams == [streams[0]] + streams[1..];
    }
  }

  /** After a completed attempt for a parsed state every enabled stream has the five values on its own path, with its
      own passphrase; all paths of other streams that were owned are gone. */
  lemma CompletedMeansFiveValues(w: World, state: DesiredState, passphrase: string -> string, lib: Library, s: Stream)
    requires GoodState(state, lib) && s in state.streams && s.enabled
    requires ReconcileOnce(w, TargetsOf(state.streams, passphrase)).ok
    ensures var after := ReconcileOnce(w, TargetsOf(state.streams, passphrase)).world;
            && "live/" + s.streamId in after.paths && "live/" + s.streamId in after.managed
            && HasFiveValues(after.paths["live/" + s.streamId], passphrase(s.streamId))
  {
    hide ReconcileOnce, Carries, HasFiveValues, ValuesFor;
    var targets := TargetsOf(state.streams, passphrase);
    TargetsOfGoodState(state, passphrase, lib);
    CompletedMeansReached(w, targets);
    var t := Target("live/" + s.streamId, ValuesFor(s, passphrase));
    TargetsHold(state.streams, passphrase, t);
    var i :| 0 <= i < |targets| && targets[i] == t;
    var after := ReconcileOnce(w, targets).world;
    assert t.path in PathsOf(targets);
    CarriesIsExact(after.paths[t.path], s, passphrase);
  }

  lemma PathIsInjective(a: Stream, b: Stream)
    requires a.Path() == b.Path()
    ensures a.streamId == b.streamId
  {
    assert a.Path()[5..] == a.streamId && b.Path()[5..] == b.streamId;
  }

  lemma {:induction false} TargetsAreDistinct(streams: seq<Stream>, passphrase: string -> string)
    requires forall i, j | 0 <= i < j < |streams| :: streams[i].streamId != streams[j].streamId
    ensures DistinctPaths(TargetsOf(streams, passphrase))
  {
    if streams != [] {
      var s, tail := streams[0], TargetsOf(streams[1..], passphrase);
      TargetsAreDistinct(streams[1..], passphrase);
      if s.enabled {
        forall j | 0 <= j < |tail| ensures tail[j].path != s.Path() {
          assert tail[j].path in PathsOf(tail);
          TargetPaths(streams[1..], passphrase, tail[j].path);
          var other :| other in streams[1..] && other.Path() == tail[j].path;
          if other.Path() == s.Path() {
            PathIsInjective(other, s);
          }
        }
        assert TargetsOf(streams, passphrase)[1..] == tail;
      }
    }
  }

  /** The targets of a state that parsing accepted meet what the theorems above ask for. */
  lemma TargetsOfGoodState(state: DesiredState, passphrase: string -> string, lib: Library)
    requires GoodState(state, lib)
    ensures var targets := TargetsOf(state.streams, passphrase);
            DistinctPaths(targets) && AllSafe(PathsOf(targets))
  {
    var targets := TargetsOf(state.streams, passphrase);
    forall i, j | 0 <= i < j < |state.streams| ensures state.streams[i].streamId != state.streams[j].streamId {
      assert StreamIds(state.streams)[i] != StreamIds(state.streams)[j];
    }
    TargetsAreDistinct(state.streams, passphrase);
    forall p | p in PathsOf(targets) ensures Safe(p) {
      TargetPaths(state.streams, passphrase, p);
      var s :| s in state.streams && s.Path() == p;
      assert GoodStream(s, lib);
      assert s.Path()[5..] == s.streamId;
    }
  }

  // ---------- the reconciler ----------

  /** The client, with the server behind it: an unsafe name is refused before any request, and the server refuses to
      add a name it has and to change or delete one it does not have. */
  class MediaMTXClient {
    var paths: map<string, PathConfig>
    var fails: Option<nat>
    var mutations: seq<Mutation>
    const defaults: PathConfig

    constructor (paths: map<string, PathConfig>, defaults: PathConfig)
      ensures this.paths == paths && this.defaults == defaults && fails == None && mutations == []
    {
      this.paths := paths;
      this.defaults := defaults;
      fails := None;
      mutations := [];
    }

    predicate Up()
      reads this
    {
      fails != Some(0)
    }

    function FailsAfterCall(): Option<nat>
      requires Up()
      reads this
    {
      if fails.Some? then Some(fails.value - 1) else None
    }

    /** A request; false when the call fails. */
    method Request() returns (ok: bool)
      modifies this`fails
      ensures ok == old(Up())
      ensures fails == if ok then old(FailsAfterCall()) else old(fails)
    {
      ok := Up();
      if ok {
        fails := FailsAfterCall();
      }
    }

    method GetPathConfig(name: string) returns (r: Result<Option<PathConfig>>)
      modifies this`fails
      ensures r.Ok? <==> Safe(name) && old(Up())
      ensures r.Ok? ==> r.value == if name in paths then Some(paths[name]) else None
      ensures fails == if r.Ok? then old(FailsAfterCall()) else old(fails)
    {
      if !Safe(name) {
        return Err(Invalid);
      }
      var ok := Request();
      if !ok {
        return Err(Invalid);
      }
      return Ok(if name in paths then Some(paths[name]) else None);
    }

    method AddPath(name: string, values: PathConfig) returns (ok: bool)
      modifies this
      ensures ok == (Safe(name) && old(Up()) && name !in old(paths))
      ensures fails == if Safe(name) && old(Up()) then old(FailsAfterCall()) else old(fails)
      ensures paths == if ok then old(paths)[name := defaults + values] else old(paths)
      ensures mutations == if ok then old(mutations) + [Added(name)] else old(mutations)
    {
      if !Safe(name) {
        return false;
      }
      ok := Request();
      if ok && name in paths {
        return false;
      }
      if ok {
        paths := paths[name := defaults + values];
        mutations := mutations + [Added(name)];
      }
    }

    method PatchPath(name: string, values: PathConfig) returns (ok: bool)
      modifies this
      ensures ok == (Safe(name) && old(Up()) && name in old(paths))
      ensures fails == if Safe(name) && old(Up()) then old(FailsAfterCall()) else old(fails)
      ensures paths == if ok then old(paths)[name := old(paths)[name] + values] else old(paths)
      ensures mutations == if ok then old(mutations) + [Patched(name)] else old(mutations)
    {
      if !Safe(name) {
        return false;
      }
      ok := Request();
      if ok && name !in paths {
        return false;
      }
      if ok {
        paths := paths[name := paths[name] + values];
        mutations := mutations + [Patched(name)];
      }
    }

    method DeletePath(name: string) returns (ok: bool)
      modifies this
      ensures ok == (Safe(name) && old(Up()) && name in old(paths))
      ensures fails == if Safe(name) && old(Up()) then old(FailsAfterCall()) else old(fails)
      ensures paths == if ok then old(paths) - {name} else old(paths)
      ensures mutations == if ok then old(mutations) + [Deleted(name)] else old(mutations)
    {
      if !Safe(name) {
        return false;
      }
      ok := Request();
      if ok && name !in paths {
        return false;
      }
      if ok {
        paths := paths - {name};
        mutations := mutations + [Deleted(name)];
      }
    }
  }

  class PathReconciler {
    const client: MediaMTXClient
    const passphrase: string -> string
    var managed: set<string>
    var file: Option<string>

    constructor (client: MediaMTXClient, passphrase: string -> string, file: Option<string>)
      ensures this.client == client && this.passphrase == passphrase && this.file == file
      ensures managed == LoadManaged(file)
    {
      this.client := client;
      this.passphrase := passphrase;
      this.file := file;
      managed := LoadManaged(file);
    }

    function View(): World
      reads this, client
    {
      World(client.paths, managed, file, client.fails, client.mutations, client.defaults)
    }

    method EnsureOne(t: Target) returns (ok: bool)
      modifies this`managed, client
      ensures Step(View(), ok) == EnsurePath(old(View()), t)
    {
      var existing := client.GetPathConfig(t.path);
      if existing.Err? {
        return false;
      }
      if existing.value.None? {
        var added := client.AddPath(t.path, t.values);
        if !added {
          return false;
        }
        managed := managed + {t.path};
        return true;
      }
      if t.path in managed {
        if !Carries(existing.value.value, t.values) {
          ok := client.PatchPath(t.path, t.values);
          return ok;
        }
        return true;
      }
      return false;
    }

    method RemoveOne(path: string) returns (ok: bool)
      modifies this`managed, client
      ensures Step(View(), ok) == RemovePath(old(View()), path)
    {
      var existing := client.GetPathConfig(path);
      if existing.Err? {
        return false;
      }
      if existing.value.Some? {
        var deleted := client.DeletePath(path);
        if !deleted {
          return false;
        }
      }
      managed := managed - {path};
      return true;
    }

    /** Raises, here: returns false, at the first refusal or failed call; the registry is saved only at the end. */
    method Reconcile(streams: seq<Stream>) returns (ok: bool)
      modifies this, client
      ensures Step(View(), ok) == ReconcileOnce(old(View()), TargetsOf(streams, passphrase))
    {
      var targets := TargetsOf(streams, passphrase);
      ghost var start := View();
      var i := 0;
      while i < |targets|
        invariant 0 <= i <= |targets|
        invariant EnsureAll(start, targets) == EnsureAll(View(), targets[i..])
        invariant file == old(file)
      {
        ok := EnsureOne(targets[i]);
        if !ok {
          return false;
        }
        assert targets[i..][1..] == targets[i + 1..];
        i := i + 1;
      }
      assert EnsureAll(start, targets) == Step(View(), true);
      ghost var ensured := View();
      var stale := SortedKeys(managed - PathsOf(targets));
      var j := 0;
      while j < |stale|
        invariant 0 <= j <= |stale|
        invariant RemoveAll(ensured, stale) == RemoveAll(View(), stale[j..])
        invariant file == old(file)
      {
        ok := RemoveOne(stale[j]);
        if !ok {
          return false;
        }
        assert stale[j..][1..] == stale[j + 1..];
        j := j + 1;
      }
      file := Some(RegistryText(managed));
      return true;
    }
  }
}
