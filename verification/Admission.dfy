/** Admission of publishers under a cap that counts ready paths and short reservations. */
module Admission {
  import opened Wrappers
  import opened Json
  import opened Models
  import StateStores

  const HOLD := 20.0

  datatype Gate = Gate(cap: int, ready: set<string>, reservations: map<string, real>)

  /** The reservations that a capacity check at `now` counts. */
  function Unexpired(reservations: map<string, real>, now: real): map<string, real> {
    map p | p in reservations && reservations[p] > now :: reservations[p]
  }

  function Occupied(g: Gate): set<string> {
    g.ready + g.reservations.Keys
  }

  /** Clock readings are taken before the lock, so those of successive events need not be in order. */
  datatype Event =
    | SetCap(value: int)
    | Refresh(ready: set<string>)
    | Reserve(path: string, now: real)

  function Purged(g: Gate, now: real): Gate {
    g.(reservations := Unexpired(g.reservations, now))
  }

  /** Whether a request for the path is let in: it is counted already, or there is room. */
  predicate LetsIn(g: Gate, path: string, now: real) {
    path in Occupied(Purged(g, now)) || |Occupied(Purged(g, now))| < g.cap
  }

  predicate Creates(g: Gate, path: string, now: real) {
    path !in Occupied(Purged(g, now)) && |Occupied(Purged(g, now))| < g.cap
  }

  function Step(g: Gate, e: Event): Gate {
    match e
    case SetCap(value) => if value < 1 then g else g.(cap := value)
    case Refresh(ready) => g.(ready := ready, reservations := g.reservations - ready)
    case Reserve(path, now) =>
      var p := Purged(g, now);
      if Creates(g, path, now) then p.(reservations := p.reservations[path := now + HOLD]) else p
  }

  function Run(g: Gate, events: seq<Event>): Gate {
    if events == [] then g else Step(Run(g, events[..|events| - 1]), events[|events| - 1])
  }

  predicate Disjoint(g: Gate) {
    g.ready !! g.reservations.Keys
  }

  // ---------- capacity ----------

  /** One check: a request is let in exactly when its path is ready or has a reservation that is not over, or when
      these are fewer than the cap. A path that is let in and not ready has a reservation afterwards, new ones for 20
      seconds; reservations that are over are gone, and the others are as they were. */
  lemma CapacityCheckIsExact(g: Gate, path: string, now: real)
    ensures var lasting := set p | p in g.reservations && g.reservations[p] > now;
            var after := Step(g, Reserve(path, now));
            && (LetsIn(g, path, now) <==> path in g.ready + lasting || |g.ready + lasting| < g.cap)
            && after.reservations.Keys == lasting + (if LetsIn(g, path, now) && path !in g.ready then {path} else {})
            && (forall p | p in lasting :: after.reservations[p] == g.reservations[p])
            && (path in after.reservations && path !in lasting ==> after.reservations[path] == now + 20.0)
            && after.ready == g.ready && after.cap == g.cap
  {
    var lasting := set p | p in g.reservations && g.reservations[p] > now;
    assert Purged(g, now).reservations.Keys == lasting;
    assert Occupied(Purged(g, now)) == g.ready + lasting;
  }

  /** A refreshed ready set names only paths that were ready or reserved just before. */
  predicate Drawn(g: Gate, e: Event) {
    e.Refresh? ==> e.ready <= Occupied(g)
  }

  predicate AllDrawn(g: Gate, events: seq<Event>) {
    events == [] ||
    (var front := events[..|events| - 1]; AllDrawn(g, front) && Drawn(Run(g, front), events[|events| - 1]))
  }

  lemma CreationFits(g: Gate, path: string, now: real)
    requires Disjoint(g) && Creates(g, path, now)
    ensures var after := Step(g, Reserve(path, now)); Disjoint(after) && |Occupied(after)| <= after.cap
  {
    var kept := Occupied(Purged(g, now));
    assert Occupied(Step(g, Reserve(path, now))) == kept + {path};
  }

  lemma NoCreationOnlyRemoves(g: Gate, e: Event)
    requires Disjoint(g) && Drawn(g, e) && !(e.Reserve? && Creates(g, e.path, e.now))
    ensures Disjoint(Step(g, e)) && Occupied(Step(g, e)) <= Occupied(g)
  {
  }

  /** One step never counts one path twice, and never raises the count above the larger of what it was and
      the cap; nothing but a creation adds a path to the count. */
  lemma StepRespectsCap(g: Gate, e: Event)
    requires Disjoint(g) && Drawn(g, e)
    ensures Disjoint(Step(g, e))
    ensures |Occupied(Step(g, e))| <= |Occupied(g)| || |Occupied(Step(g, e))| <= Step(g, e).cap
    ensures Occupied(Step(g, e)) <= Occupied(g) || (e.Reserve? && Creates(g, e.path, e.now))
  {
    if e.Reserve? && Creates(g, e.path, e.now) {
      CreationFits(g, e.path, e.now);
    } else {
      NoCreationOnlyRemoves(g, e);
      CardinalityOfSubset(Occupied(Step(g, e)), Occupied(g));
    }
  }

  predicate CapsWithin(g: Gate, events: seq<Event>, bound: int) {
    g.cap <= bound && forall i | 0 <= i < |events| && events[i].SetCap? :: events[i].value <= bound
  }

  /** Over any history with any clock readings: ready and reserved paths stay disjoint, and a count that starts
      within a bound stays within it as long as no cap exceeds the bound. With a constant cap that is the cap. */
  lemma {:induction false} CapacityHolds(g: Gate, events: seq<Event>, bound: int)
    requires Disjoint(g) && AllDrawn(g, events) && CapsWithin(g, events, bound)
    requires |Occupied(g)| <= bound
    ensures Disjoint(Run(g, events)) && |Occupied(Run(g, events))| <= bound && Run(g, events).cap <= bound
  {
    if events != [] {
      var front := events[..|events| - 1];
      CapacityHolds(g, front, bound);
      StepRespectsCap(Run(g, front), events[|events| - 1]);
    }
  }

  /** A cap that was lowered evicts nobody, and as long as the count is not below it only paths that are counted
      already are let in. */
  lemma LoweredCapAdmitsNobodyNew(g: Gate, value: int, path: string, now: real)
    requires value >= 1
    ensures var lowered := Step(g, SetCap(value));
            && lowered.ready == g.ready && lowered.reservations == g.reservations
            && (|Occupied(Purged(g, now))| >= value ==>
                  && (LetsIn(lowered, path, now) <==> path in Occupied(Purged(g, now)))
                  && Occupied(Step(lowered, Reserve(path, now))) <= Occupied(g))
  {
    assert Purged(Step(g, SetCap(value)), now).reservations == Purged(g, now).reservations;
    assert Occupied(Purged(Step(g, SetCap(value)), now)) == Occupied(Purged(g, now));
  }

  // ---------- above the cap ----------

  /** A history that starts from a gate within its cap, with ready sets drawn from paths that are counted. */
  predicate FromWithinCap(g: Gate, events: seq<Event>) {
    Disjoint(g) && AllDrawn(g, events) && |Occupied(g)| <= g.cap
  }

  predicate OverCapacity(g: Gate) {
    |g.ready| > g.cap
  }

  /** More ready paths than the cap are reported only after the cap was lowered: it was higher in the beginning, or
      was set to a higher value since. While it lasts, only paths that are counted already are let in. */
  lemma OverCapacityMeansLowered(g: Gate, events: seq<Event>, path: string, now: real)
    requires FromWithinCap(g, events) && OverCapacity(Run(g, events))
    ensures var end := Run(g, events);
            && (g.cap > end.cap || exists i | 0 <= i < |events| && events[i].SetCap? :: events[i].value > end.cap)
            && (LetsIn(end, path, now) <==> path in Occupied(Purged(end, now)))
  {
    var end := Run(g, events);
    CardinalityOfSubset(end.ready, Occupied(end));
    CardinalityOfSubset(end.ready, Occupied(Purged(end, now)));
    if g.cap <= end.cap && forall i | 0 <= i < |events| && events[i].SetCap? :: events[i].value <= end.cap {
      CapacityHolds(g, events, end.cap);
    }
  }

  // ---------- reservations age ----------

  /** Event i of a history created a reservation. */
  predicate CreatedAt(g: Gate, events: seq<Event>, i: nat)
    requires i < |events|
  {
    events[i].Reserve? && Creates(Run(g, events[..i]), events[i].path, events[i].now)
  }

  /** Event i created the reservation for the path, with this deadline. */
  predicate CreatedWith(g: Gate, events: seq<Event>, i: nat, path: string, deadline: real) {
    i < |events| && CreatedAt(g, events, i) && events[i].path == path && deadline == events[i].now + HOLD
  }

  lemma KeptReservation(g: Gate, e: Event, path: string)
    requires path in Step(g, e).reservations
    requires !(e.Reserve? && e.path == path && Creates(g, path, e.now))
    ensures path in g.reservations && Step(g, e).reservations[path] == g.reservations[path]
  {
  }

  /** Every reservation still has the deadline it was created with, however often its path was authorised since. */
  lemma {:induction false} DeadlinesComeFromCreation(g: Gate, events: seq<Event>, path: string)
    requires g.reservations == map[] && path in Run(g, events).reservations
    ensures exists i: nat :: CreatedWith(g, events, i, path, Run(g, events).reservations[path])
  {
    var n := |events| - 1;
    var front, last := events[..n], events[n];
    var before := Run(g, front);
    if last.Reserve? && last.path == path && Creates(before, path, last.now) {
      assert CreatedWith(g, events, n, path, Run(g, events).reservations[path]);
    } else {
      KeptReservation(before, last, path);
      DeadlinesComeFromCreation(g, front, path);
      var i: nat :| CreatedWith(g, front, i, path, before.reservations[path]);
      assert front[..i] == events[..i] && events[i] == front[i];
      assert CreatedWith(g, events, i, path, Run(g, events).reservations[path]);
    }
  }

  /** A reservation that was created at clock t is not counted by any check with a clock of at least t + 20. */
  lemma ReservationsAreNotHeldOpen(g: Gate, events: seq<Event>, path: string, now: real)
    requires g.reservations == map[] && path in Unexpired(Run(g, events).reservations, now)
    ensures exists i: nat ::
              i < |events| && CreatedAt(g, events, i) && events[i].path == path && now < events[i].now + HOLD
  {
    DeadlinesComeFromCreation(g, events, path);
    var i: nat :| CreatedWith(g, events, i, path, Run(g, events).reservations[path]);
  }

  /** Until its deadline it does count: as long as clocks are before that and no ready set has taken the path over,
      the reservation is there, with the same deadline, and its path is let in. */
  lemma {:induction false} ReservationsLast(g: Gate, path: string, created: real, later: seq<Event>, now: real)
    requires Creates(g, path, created) && now < created + 20.0
    requires forall i | 0 <= i < |later| && later[i].Reserve? :: later[i].now < created + 20.0
    requires forall i | 0 <= i < |later| && later[i].Refresh? :: path !in later[i].ready
    ensures var end := Run(Step(g, Reserve(path, created)), later);
            && path in end.reservations && end.reservations[path] == created + 20.0
            && path in Occupied(Purged(end, now)) && LetsIn(end, path, now)
  {
    if later != [] {
      var n := |later| - 1;
      ReservationsLast(g, path, created, later[..n], now);
    }
  }

  /** When the ready paths are below the cap and nothing was reserved in the last 20 seconds, everybody is let in. */
  lemma QuietGateIsOpen(g: Gate, events: seq<Event>, path: string, now: real)
    requires g.reservations == map[] && |Run(g, events).ready| < Run(g, events).cap
    requires forall i: nat | i < |events| && CreatedAt(g, events, i) :: events[i].now + HOLD <= now
    ensures LetsIn(Run(g, events), path, now)
  {
    var end := Run(g, events);
    forall p ensures p !in Unexpired(end.reservations, now) {
      if p in Unexpired(end.reservations, now) {
        ReservationsAreNotHeldOpen(g, events, p, now);
      }
    }
    assert Occupied(Purged(end, now)) == end.ready;
  }

  // ---------- requests ----------

  /** What a request comes to before capacity is looked at. */
  datatype Screening = Denied | Granted | Broken | NeedsRoom(path: string)

  function Field(request: map<string, Json>, name: string): Json {
    if name in request then request[name] else Null
  }

  function StreamId(path: Json): Option<string> {
    if path.Str? && "live/" <= path.s && IsToken(path.s[5..], 8, 128) then Some(path.s[5..]) else None
  }

  /** The stream under an identifier; identifiers of a parsed state are distinct. */
  function FindStream(streams: seq<Stream>, id: string): Option<Stream> {
    if streams == [] then None
    else if streams[|streams| - 1].streamId == id then Some(streams[|streams| - 1])
    else FindStream(streams[..|streams| - 1], id)
  }

  function Screen(request: Json, state: Option<DesiredState>, isLoopback: Json -> bool): Screening {
    if !request.Obj? then Denied
    else
      var f := request.fields;
      var id := StreamId(Field(f, "path"));
      if state.None? || id.None? then Denied
      else
        var stream := FindStream(state.value.streams, id.value);
        if stream.None? || !stream.value.enabled then Denied
        else ScreenFor(f, stream.value, isLoopback)
  }

  function ScreenFor(f: map<string, Json>, stream: Stream, isLoopback: Json -> bool): Screening {
    var action, protocol := Field(f, "action"), Field(f, "protocol");
    var user, password := Field(f, "user"), Field(f, "password");
    if action == Str("read") then
      if protocol == Str("rtsp") && isLoopback(if "ip" in f then f["ip"] else Str("")) then Granted else Denied
    else if action != Str("publish") then Denied
    else if !Hashable(protocol) then Broken
    else if protocol != Str("srt") && protocol != Str("rtmp") then Denied
    else if !user.Str? || !password.Str? then Denied
    else if !StateStores.IsAscii(user.s) then Broken
    else if user.s != "source" then Denied
    else if !StateStores.IsAscii(password.s) || !StateStores.IsAscii(stream.publishCredential) then Broken
    else if password.s != stream.publishCredential then Denied
    else NeedsRoom(stream.Path())
  }

  /** A publish request with the right credentials for an enabled stream. */
  predicate ValidPublish(request: Json, state: DesiredState, s: Stream) {
    && request.Obj? && s in state.streams && s.enabled && StateStores.IsAscii(s.publishCredential)
    && Field(request.fields, "path") == Str(s.Path())
    && Field(request.fields, "action") == Str("publish")
    && Field(request.fields, "protocol") in {Str("srt"), Str("rtmp")}
    && Field(request.fields, "user") == Str("source")
    && Field(request.fields, "password") == Str(s.publishCredential)
  }

  lemma {:induction false} FindStreamFinds(streams: seq<Stream>, s: Stream)
    requires Distinct(StreamIds(streams)) && s in streams
    ensures FindStream(streams, s.streamId) == Some(s)
  {
    var n := |streams| - 1;
    var front := streams[..n];
    assert StreamIds(front) == StreamIds(streams)[..n];
    var i :| 0 <= i < |streams| && streams[i] == s;
    assert StreamIds(streams)[i] == s.streamId && StreamIds(streams)[n] == streams[n].streamId;
    if i < n {
      assert front[i] == s;
      FindStreamFinds(front, s);
    }
  }

  lemma {:induction false} FoundStreamIsThere(streams: seq<Stream>, id: string)
    requires FindStream(streams, id).Some?
    ensures FindStream(streams, id).value in streams && FindStream(streams, id).value.streamId == id
  {
    if streams[|streams| - 1].streamId != id {
      FoundStreamIsThere(streams[..|streams| - 1], id);
    }
  }

  /** Capacity is asked for exactly for the valid publish requests, and for the path of their stream. */
  lemma ScreeningIsExact(request: Json, state: DesiredState, isLoopback: Json -> bool, lib: Library, path: string)
    requires GoodState(state, lib)
    ensures Screen(request, Some(state), isLoopback) == NeedsRoom(path) <==>
            exists s | s in state.streams :: ValidPublish(request, state, s) && s.Path() == path
  {
    if Screen(request, Some(state), isLoopback) == NeedsRoom(path) {
      var id := StreamId(Field(request.fields, "path")).value;
      FoundStreamIsThere(state.streams, id);
      var s := FindStream(state.streams, id).value;
      assert Field(request.fields, "path").s == "live/" + id;
      assert ValidPublish(request, state, s);
    }
    if s :| s in state.streams && ValidPublish(request, state, s) && s.Path() == path {
      FindStreamFinds(state.streams, s);
      var i :| 0 <= i < |state.streams| && state.streams[i] == s;
      assert GoodStream(state.streams[i], lib);
      assert s.Path()[5..] == s.streamId;
    }
  }

  /** A request that names an enabled stream. */
  predicate Names(request: Json, s: Stream) {
    request.Obj? && s.enabled && Field(request.fields, "path") == Str("live/" + s.streamId)
  }

  /** The media server itself, which reads over RTSP from this machine. */
  predicate ReadsLocally(request: Json, isLoopback: Json -> bool)
    requires request.Obj?
  {
    && Field(request.fields, "action") == Str("read") && Field(request.fields, "protocol") == Str("rtsp")
    && isLoopback(if "ip" in request.fields then request.fields["ip"] else Str(""))
  }

  /** A publish request that cannot be checked: its protocol cannot be looked up, or a text that would have to be
      compared is not ASCII. */
  predicate CannotBeChecked(request: Json, s: Stream)
    requires request.Obj?
  {
    var f := request.fields;
    && Field(f, "action") == Str("publish")
    && (|| Field(f, "protocol").Arr? || Field(f, "protocol").Obj?
        || (&& Field(f, "protocol") in {Str("srt"), Str("rtmp")}
            && Field(f, "user").Str? && Field(f, "password").Str?
            && (|| !StateStores.IsAscii(Field(f, "user").s)
                || (&& Field(f, "user").s == "source"
                    && !(StateStores.IsAscii(Field(f, "password").s) && StateStores.IsAscii(s.publishCredential))))))
  }

  lemma ScreenedStream(request: Json, state: DesiredState, isLoopback: Json -> bool, lib: Library, s: Stream)
    requires GoodState(state, lib) && s in state.streams && Names(request, s)
    ensures Screen(request, Some(state), isLoopback) == ScreenFor(request.fields, s, isLoopback)
  {
    FindStreamFinds(state.streams, s);
    var i :| 0 <= i < |state.streams| && state.streams[i] == s;
    assert GoodStream(state.streams[i], lib);
    assert ("live/" + s.streamId)[5..] == s.streamId;
  }

  lemma ScreeningNeedsStream(request: Json, state: DesiredState, isLoopback: Json -> bool)
    requires Screen(request, Some(state), isLoopback) != Denied
    ensures exists s | s in state.streams :: Names(request, s)
  {
    var id := StreamId(Field(request.fields, "path")).value;
    FoundStreamIsThere(state.streams, id);
    var s := FindStream(state.streams, id).value;
    assert Field(request.fields, "path").s == "live/" + id;
    assert Names(request, s);
  }

  /** Everything else is decided without looking at capacity. A request is granted exactly when it reads locally from an
      enabled stream, so no request to publish ever is; and the check fails exactly when it cannot be made. */
  lemma GrantsAreExact(request: Json, state: DesiredState, isLoopback: Json -> bool, lib: Library)
    requires GoodState(state, lib)
    ensures Screen(request, Some(state), isLoopback) == Granted <==>
            exists s | s in state.streams :: Names(request, s) && ReadsLocally(request, isLoopback)
    ensures Screen(request, Some(state), isLoopback) == Broken <==>
            exists s | s in state.streams :: Names(request, s) && CannotBeChecked(request, s)
    ensures Screen(request, None, isLoopback) == Denied
  {
    hide StateStores.IsAscii, CannotBeChecked, ScreenFor;
    forall s | s in state.streams && Names(request, s)
      ensures request.Obj? && Screen(request, Some(state), isLoopback) == ScreenFor(request.fields, s, isLoopback)
    {
      ScreenedStream(request, state, isLoopback, lib, s);
    }
    if Screen(request, Some(state), isLoopback) != Denied {
      ScreeningNeedsStream(request, state, isLoopback);
      var s :| s in state.streams && Names(request, s);
      ScreenedIsExact(request, s, isLoopback);
    }
    forall s | s in state.streams && Names(request, s)
      ensures request.Obj?
      ensures ScreenFor(request.fields, s, isLoopback) == Granted <==> ReadsLocally(request, isLoopback)
      ensures ScreenFor(request.fields, s, isLoopback) == Broken <==> CannotBeChecked(request, s)
    {
      ScreenedIsExact(request, s, isLoopback);
    }
  }

  lemma ScreenedIsExact(request: Json, s: Stream, isLoopback: Json -> bool)
    requires Names(request, s)
    ensures request.Obj?
    ensures ScreenFor(request.fields, s, isLoopback) == Granted <==> ReadsLocally(request, isLoopback)
    ensures ScreenFor(request.fields, s, isLoopback) == Broken <==> CannotBeChecked(request, s)
  {
    hide StateStores.IsAscii;
  }

  // ---------- the controller ----------

  class AdmissionController {
    var maxActiveModels: int
    var readyPaths: set<string>
    var reservations: map<string, real>

    constructor (maxActiveModels: int)
      ensures View() == Gate(maxActiveModels, {}, map[])
    {
      this.maxActiveModels := maxActiveModels;
      readyPaths := {};
      reservations := map[];
    }

    function View(): Gate
      reads this
    {
      Gate(maxActiveModels, readyPaths, reservations)
    }

    method SetMaxServerConnections(value: int) returns (r: Result<()>)
      modifies this`maxActiveModels
      ensures r == if value < 1 then Err(Fault) else Ok(())
      ensures View() == Step(old(View()), SetCap(value))
    {
      if value < 1 {
        return Err(Fault);
      }
      maxActiveModels := value;
      return Ok(());
    }

    method UpdateReadyPaths(paths: map<string, map<string, Json>>)
      modifies this`readyPaths, this`reservations
      ensures readyPaths == set p | p in paths && "live/" <= p && IsReady(paths[p])
      ensures View() == Step(old(View()), Refresh(readyPaths))
    {
      var ready := set p | p in paths && "live/" <= p && IsReady(paths[p]);
      readyPaths := ready;
      var rest := ready;
      while rest != {}
        invariant rest <= ready && readyPaths == ready
        invariant reservations == old(reservations) - (ready - rest)
      {
        var p :| p in rest;
        reservations := reservations - {p};
        rest := rest - {p};
      }
      assert ready - rest == ready;
    }

    method ReserveCapacity(path: string, now: real) returns (ok: bool)
      modifies this`reservations
      ensures ok == LetsIn(old(View()), path, now)
      ensures View() == Step(old(View()), Reserve(path, now))
    {
      reservations := Unexpired(reservations, now);
      if path in readyPaths || path in reservations {
        return true;
      }
      var occupied := readyPaths + reservations.Keys;
      if |occupied| >= maxActiveModels {
        return false;
      }
      reservations := reservations[path := now + HOLD];
      return true;
    }

    method Authorize(request: Json, state: Option<DesiredState>, isLoopback: Json -> bool, now: real)
      returns (r: Result<bool>)
      modifies this`reservations
      ensures match Screen(request, state, isLoopback)
              case Denied => r == Ok(false) && View() == old(View())
              case Granted => r == Ok(true) && View() == old(View())
              case Broken => r == Err(Fault) && View() == old(View())
              case NeedsRoom(path) =>
                r == Ok(LetsIn(old(View()), path, now)) && View() == Step(old(View()), Reserve(path, now))
    {
      match Screen(request, state, isLoopback)
      case Denied => return Ok(false);
      case Granted => return Ok(true);
      case Broken => return Err(Fault);
      case NeedsRoom(path) =>
        var ok := ReserveCapacity(path, now);
        return Ok(ok);
    }

    /** The status. Whatever history led to it from a gate within its cap, more publishers than the cap mean that the
        cap was lowered. */
    method LimitStatus(ghost start: Gate, ghost events: seq<Event>) returns (cap: int, active: nat, over: bool)
      ensures cap == View().cap && active == |View().ready| && (over <==> OverCapacity(View()))
      ensures over && FromWithinCap(start, events) && View() == Run(start, events) ==>
                start.cap > cap || exists i | 0 <= i < |events| && events[i].SetCap? :: events[i].value > cap
    {
      cap := maxActiveModels;
      active := |readyPaths|;
      over := active > cap;
      if over && FromWithinCap(start, events) && View() == Run(start, events) {
        OverCapacityMeansLowered(start, events, "", 0.0);
      }
    }
  }
}
